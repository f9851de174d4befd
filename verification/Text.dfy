/** The string operations of Python that the start-up file code uses. */
module Text {

  predicate IsSpace(c: char) {
    var n := c as int;
    || 0x09 <= n <= 0x0d || 0x1c <= n <= 0x20 || n == 0x85 || n == 0xa0 || n == 0x1680
    || 0x2000 <= n <= 0x200a || n == 0x2028 || n == 0x2029 || n == 0x202f || n == 0x205f || n == 0x3000
  }

  /** Not empty, and nowhere blank. */
  predicate IsWord(s: string) { s != [] && forall i :: 0 <= i < |s| ==> !IsSpace(s[i]) }

  // ---- split() and strip() ----

  function WordLen(s: string): (n: nat)
    ensures n <= |s| && (n < |s| ==> IsSpace(s[n]))
    ensures forall i :: 0 <= i < n ==> !IsSpace(s[i])
  {
    if s == [] || IsSpace(s[0]) then 0 else WordLen(s[1..]) + 1
  }

  /** `s.split()` */
  function Words(s: string): (ws: seq<string>)
    ensures forall i :: 0 <= i < |ws| ==> IsWord(ws[i])
  {
    if s == [] then []
    else if IsSpace(s[0]) then Words(s[1..])
    else
      var n := WordLen(s);
      [s[..n]] + Words(s[n..])
  }

  function LStrip(s: string): string { if s != [] && IsSpace(s[0]) then LStrip(s[1..]) else s }

  function RStrip(s: string): string {
    if s != [] && IsSpace(s[|s| - 1]) then RStrip(s[..|s| - 1]) else s
  }

  /** `s.strip()` */
  function Strip(s: string): string { RStrip(LStrip(s)) }

  /** A blank after the end adds no word. */
  lemma {:induction false} WordsTrailing(s: string, c: char)
    requires IsSpace(c)
    ensures Words(s + [c]) == Words(s)
  {
    if s == [] {
      assert (s + [c])[1..] == [];
    } else if IsSpace(s[0]) {
      assert (s + [c])[1..] == s[1..] + [c];
      WordsTrailing(s[1..], c);
    } else {
      var n := WordLen(s);
      WordLenIs(s + [c], n);
      assert (s + [c])[..n] == s[..n] && (s + [c])[n..] == s[n..] + [c];
      WordsTrailing(s[n..], c);
    }
  }

  lemma {:induction false} WordLenIs(s: string, n: nat)
    requires n <= |s| && (n < |s| ==> IsSpace(s[n])) && forall i :: 0 <= i < n ==> !IsSpace(s[i])
    ensures WordLen(s) == n
  {
  }

  /** What `split()` does: it cuts at every blank, and leaves what has no blank whole. */
  lemma {:induction false} WordsSplit(a: string, c: char, b: string)
    requires IsSpace(c)
    ensures Words(a + [c] + b) == Words(a) + Words(b)
  {
    var s := a + [c] + b;
    if a == [] {
      assert s[1..] == b;
    } else if IsSpace(a[0]) {
      assert s[1..] == a[1..] + [c] + b;
      WordsSplit(a[1..], c, b);
    } else {
      var n := WordLen(a);
      WordLenIs(s, n);
      assert s[..n] == a[..n] && s[n..] == a[n..] + [c] + b;
      WordsSplit(a[n..], c, b);
    }
  }

  lemma {:induction false} WordsOfWord(w: string)
    requires IsWord(w)
    ensures Words(w) == [w] && Words("") == []
  {
    WordLenIs(w, |w|);
    assert w[|w|..] == "" && w[..|w|] == w;
  }

  /** The first character of the first word is the first that is not a blank. */
  lemma {:induction false} FirstNonBlank(s: string) returns (k: nat)
    ensures k <= |s| && forall j :: 0 <= j < k ==> IsSpace(s[j])
    ensures k == |s| <==> Words(s) == []
    ensures k < |s| ==> !IsSpace(s[k]) && Words(s)[0] != [] && Words(s)[0][0] == s[k]
  {
    if s == [] || !IsSpace(s[0]) {
      k := 0;
    } else {
      k := FirstNonBlank(s[1..]);
      k := k + 1;
    }
  }

  lemma {:induction false} WordsLStrip(s: string)
    ensures Words(LStrip(s)) == Words(s)
  {
    if s != [] && IsSpace(s[0]) {
      WordsLStrip(s[1..]);
    }
  }

  lemma {:induction false} WordsRStrip(s: string)
    ensures Words(RStrip(s)) == Words(s)
  {
    if s != [] && IsSpace(s[|s| - 1]) {
      WordsRStrip(s[..|s| - 1]);
      WordsTrailing(s[..|s| - 1], s[|s| - 1]);
      assert s[..|s| - 1] + [s[|s| - 1]] == s;
    }
  }

  lemma {:induction false} WordsStrip(s: string)
    ensures Words(Strip(s)) == Words(s)
  {
    WordsLStrip(s);
    WordsRStrip(LStrip(s));
  }

  // ---- ' '.join, replace and split(' ') ----

  function Join(ws: seq<string>): string {
    if ws == [] then "" else if |ws| == 1 then ws[0] else ws[0] + " " + Join(ws[1..])
  }

  /** `s.replace(c, '')` */
  function Remove(s: string, c: char): string {
    if s == [] then [] else (if s[0] == c then [] else [s[0]]) + Remove(s[1..], c)
  }

  function SpaceAt(s: string): (n: nat)
    ensures n <= |s| && (n < |s| ==> s[n] == ' ') && forall i :: 0 <= i < n ==> s[i] != ' '
  {
    if s == [] || s[0] == ' ' then 0 else SpaceAt(s[1..]) + 1
  }

  /** `s.split(' ')` */
  function Fields(s: string): seq<string> {
    var n := SpaceAt(s);
    if n == |s| then [s] else [s[..n]] + Fields(s[n + 1..])
  }

  /** Removing commas and semicolons. */
  function Clean(s: string): string { Remove(Remove(s, ','), ';') }

  function CleanAll(ws: seq<string>): seq<string> { seq(|ws|, i requires 0 <= i < |ws| => Clean(ws[i])) }

  lemma {:induction false} RemoveConcat(a: string, b: string, c: char)
    ensures Remove(a + b, c) == Remove(a, c) + Remove(b, c)
  {
    if a == [] {
      assert a + b == b;
    } else {
      assert (a + b)[1..] == a[1..] + b;
      RemoveConcat(a[1..], b, c);
    }
  }

  lemma {:induction false} RemoveKeeps(s: string, c: char)
    ensures forall x :: x in Remove(s, c) <==> x in s && x != c
  {
    if s != [] {
      RemoveKeeps(s[1..], c);
    }
  }

  lemma {:induction false} RemoveNothing(s: string, c: char)
    requires c !in s
    ensures Remove(s, c) == s
  {
    if s != [] {
      RemoveNothing(s[1..], c);
    }
  }

  lemma {:induction false} RemoveOne(x: char, c: char)
    ensures Remove([x], c) == if x == c then [] else [x]
  {
    assert [x][1..] == [] && Remove([], c) == [];
  }

  lemma {:induction false} CleanConcat(a: string, b: string)
    ensures Clean(a + b) == Clean(a) + Clean(b)
  {
    RemoveConcat(a, b, ',');
    RemoveConcat(Remove(a, ','), Remove(b, ','), ';');
  }

  /** A field without separators survives its own comma or semicolon. */
  lemma {:induction false} CleanField(s: string, sep: char)
    requires ',' !in s && ';' !in s && sep in {',', ';'}
    ensures Clean(s + [sep]) == s
  {
    CleanConcat(s, [sep]);
    RemoveNothing(s, ',');
    RemoveNothing(s, ';');
    RemoveOne(sep, ',');
    RemoveOne(sep, ';');
  }

  lemma {:induction false} SpaceAtIs(s: string, n: nat)
    requires n <= |s| && (n < |s| ==> s[n] == ' ') && forall i :: 0 <= i < n ==> s[i] != ' '
    ensures SpaceAt(s) == n
  {
  }

  lemma {:induction false} FieldsStep(a: string, rest: string)
    requires ' ' !in a
    ensures Fields(a + " " + rest) == [a] + Fields(rest)
  {
    var s := a + " " + rest;
    forall i | 0 <= i < |a| ensures s[i] != ' ' {
      assert a[i] in a;
    }
    SpaceAtIs(s, |a|);
    assert s[..|a|] == a && s[|a| + 1..] == rest;
  }

  lemma {:induction false} CleanFirst(a: string, rest: string)
    ensures Clean(a + " " + rest) == Clean(a) + " " + Clean(rest)
  {
    CleanConcat(a + " ", rest);
    CleanConcat(a, " ");
    RemoveNothing(" ", ',');
    RemoveNothing(" ", ';');
  }

  lemma {:induction false} CleanWord(a: string)
    requires IsWord(a)
    ensures ' ' !in Clean(a)
  {
    RemoveKeeps(a, ',');
    RemoveKeeps(Remove(a, ','), ';');
    assert ' ' !in a;
  }

  lemma {:induction false} CleanAllFirst(ws: seq<string>)
    requires ws != []
    ensures CleanAll(ws) == [Clean(ws[0])] + CleanAll(ws[1..])
  {
  }

  lemma {:induction false} FieldsAlone(a: string)
    requires ' ' !in a
    ensures Fields(a) == [a]
  {
    SpaceAtIs(a, |a|);
  }

  /** Collapsing the blanks of a line, dropping its commas and semicolons, and splitting at the single
      blanks gives its words, each without commas and semicolons. */
  lemma {:induction false} FieldsOfJoin(ws: seq<string>)
    requires ws != [] && forall i :: 0 <= i < |ws| ==> IsWord(ws[i])
    ensures Fields(Clean(Join(ws))) == CleanAll(ws)
  {
    CleanWord(ws[0]);
    if |ws| == 1 {
      FieldsAlone(Clean(ws[0]));
    } else {
      CleanFirst(ws[0], Join(ws[1..]));
      FieldsStep(Clean(ws[0]), Clean(Join(ws[1..])));
      FieldsOfJoin(ws[1..]);
      CleanAllFirst(ws);
    }
  }

  // ---- Padding ----

  function Spaces(n: nat): string { seq(n, _ => ' ') }

  function LJust(s: string, width: nat): string { s + Spaces(if width > |s| then width - |s| else 0) }

  function RJust(s: string, width: nat): string { Spaces(if width > |s| then width - |s| else 0) + s }

  /** A word and the blanks after it. */
  datatype Cell = Cell(word: string, gap: nat)

  function Render(cells: seq<Cell>): string {
    if cells == [] then [] else cells[0].word + Spaces(cells[0].gap) + Render(cells[1..])
  }

  ghost predicate AllWords(cells: seq<Cell>) {
    forall i :: 0 <= i < |cells| ==> IsWord(cells[i].word)
  }

  /** Every cell but the last is set off from the next. */
  predicate Apart(cells: seq<Cell>) {
    forall i :: 0 <= i < |cells| - 1 ==> cells[i].gap > 0
  }

  function CellWords(cells: seq<Cell>): seq<string> {
    seq(|cells|, i requires 0 <= i < |cells| => cells[i].word)
  }

  lemma {:induction false} WordsSkipSpaces(n: nat, rest: string)
    ensures Words(Spaces(n) + rest) == Words(rest)
  {
    if n > 0 {
      assert (Spaces(n) + rest)[1..] == Spaces(n - 1) + rest;
      WordsSkipSpaces(n - 1, rest);
    } else {
      assert Spaces(n) + rest == rest;
    }
  }

  lemma {:induction false} WordsCell(w: string, gap: nat, rest: string)
    requires IsWord(w) && (gap > 0 || rest == [])
    ensures Words(w + Spaces(gap) + rest) == [w] + Words(rest)
  {
    var s := w + Spaces(gap) + rest;
    WordLenIs(s, |w|);
    assert s[..|w|] == w && s[|w|..] == Spaces(gap) + rest;
    WordsSkipSpaces(gap, rest);
  }

  /** A word run into what follows adds no word. */
  lemma {:induction false} WordsGlued(w: string, rest: string)
    requires IsWord(w) && rest != [] && !IsSpace(rest[0])
    ensures |Words(w + rest)| == |Words(rest)|
  {
    var n := WordLen(rest);
    WordLenIs(w + rest, |w| + n);
    assert (w + rest)[|w| + n..] == rest[n..];
  }

  /** The words of a row of cells: all of them if the cells are apart, and fewer otherwise. */
  lemma {:induction false} WordsOfRow(cells: seq<Cell>)
    requires cells != [] && AllWords(cells)
    ensures Render(cells) != [] && !IsSpace(Render(cells)[0])
    ensures Apart(cells) ==> Words(Render(cells)) == CellWords(cells)
    ensures 0 < |Words(Render(cells))| <= |cells|
    ensures |Words(Render(cells))| == |cells| ==> Apart(cells)
  {
    var w, gap, rest := cells[0].word, cells[0].gap, cells[1..];
    if rest == [] {
      WordsCell(w, gap, []);
      assert Render(cells) == w + Spaces(gap) + [];
      assert CellWords(cells) == [w];
    } else {
      WordsOfRow(rest);
      if gap > 0 {
        WordsCell(w, gap, Render(rest));
        assert CellWords(cells) == [w] + CellWords(rest);
        assert Apart(rest) ==> Apart(cells);
      } else {
        assert w + Spaces(gap) == w;
        WordsGlued(w, Render(rest));
      }
      assert Apart(cells) ==> Apart(rest) by {
        assert forall i :: 0 <= i < |rest| - 1 ==> rest[i] == cells[i + 1];
      }
    }
  }

  // ---- Lines of a file ----

  function Concat(lines: seq<string>): string { if lines == [] then [] else lines[0] + Concat(lines[1..]) }

  function LineLen(s: string): (n: nat)
    ensures n <= |s| && (s != [] ==> n > 0)
  {
    if s == [] then 0 else if s[0] == '\n' then 1 else LineLen(s[1..]) + 1
  }

  /** Iterating over a text file. */
  function Lines(text: string): seq<string> {
    if text == [] then []
    else
      var n := LineLen(text);
      [text[..n]] + Lines(text[n..])
  }

  lemma {:induction false} LineLenIs(line: string, rest: string)
    requires line != [] && forall i :: 0 <= i < |line| - 1 ==> line[i] != '\n'
    requires rest == [] || line[|line| - 1] == '\n'
    ensures LineLen(line + rest) == |line|
    decreases line
  {
    if |line| > 1 {
      assert (line + rest)[1..] == line[1..] + rest;
      LineLenIs(line[1..], rest);
    } else if rest == [] {
      assert line + rest == line;
    }
  }

  lemma {:induction false} LinesStep(line: string, rest: string)
    requires line != [] && forall i :: 0 <= i < |line| - 1 ==> line[i] != '\n'
    requires rest == [] || line[|line| - 1] == '\n'
    ensures Lines(line + rest) == [line] + Lines(rest)
  {
    LineLenIs(line, rest);
    assert (line + rest)[..|line|] == line && (line + rest)[|line|..] == rest;
  }

  /** A text that ends in a line feed is a first line and such a text, which may be empty. */
  lemma {:induction false} SplitLine(a: string) returns (line: string, rest: string)
    requires a != [] && a[|a| - 1] == '\n'
    ensures a == line + rest && line != [] && line[|line| - 1] == '\n'
    ensures forall i :: 0 <= i < |line| - 1 ==> line[i] != '\n'
    ensures rest == [] || rest[|rest| - 1] == '\n'
  {
    FirstLine(a);
    line, rest := a[..LineLen(a)], a[LineLen(a)..];
  }

  /** Whole lines in front are read first. */
  lemma {:induction false} LinesOfParts(a: string, b: string)
    requires a == [] || a[|a| - 1] == '\n'
    ensures Lines(a + b) == Lines(a) + Lines(b)
    decreases |a|
  {
    if a == [] {
      assert a + b == b;
    } else {
      var line, rest := SplitLine(a);
      calc {
        Lines(a + b);
        { assert a + b == line + (rest + b); }
        Lines(line + (rest + b));
        { LinesStep(line, rest + b); }
        [line] + Lines(rest + b);
        { LinesOfParts(rest, b); }
        [line] + (Lines(rest) + Lines(b));
        ([line] + Lines(rest)) + Lines(b);
        { LinesStep(line, rest); }
        Lines(a) + Lines(b);
      }
    }
  }

  lemma {:induction false} FirstLine(text: string)
    requires text != []
    ensures var n := LineLen(text);
            && 0 < n && (forall i :: 0 <= i < n - 1 ==> text[i] != '\n')
            && (text[n - 1] == '\n' || n == |text|)
    decreases |text|
  {
    if text[0] != '\n' && |text| > 1 {
      FirstLine(text[1..]);
    }
  }

  /** The lines make up the text; each ends at its only line feed, but for a last one that has none. */
  lemma {:induction false} LinesAreTheText(text: string)
    ensures Concat(Lines(text)) == text
    ensures forall i :: 0 <= i < |Lines(text)| ==>
              var line := Lines(text)[i];
              IsLine(line) || (i == |Lines(text)| - 1 && line != [] && '\n' !in line)
    decreases |text|
  {
    if text != [] {
      var n := LineLen(text);
      FirstLine(text);
      LinesAreTheText(text[n..]);
      assert text == text[..n] + text[n..];
    }
  }

  predicate IsLine(s: string) {
    s != [] && s[|s| - 1] == '\n' && forall i :: 0 <= i < |s| - 1 ==> s[i] != '\n'
  }

  lemma {:induction false} LineLenOfLine(line: string, rest: string)
    requires IsLine(line)
    ensures LineLen(line + rest) == |line|
  {
    if |line| > 1 {
      assert (line + rest)[1..] == line[1..] + rest;
      LineLenOfLine(line[1..], rest);
    }
  }

  /** Reading a written file line by line gives back the lines. */
  lemma {:induction false} LinesOfConcat(lines: seq<string>)
    requires forall i :: 0 <= i < |lines| ==> IsLine(lines[i])
    ensures Lines(Concat(lines)) == lines
  {
    if lines != [] {
      var rest := Concat(lines[1..]);
      LineLenOfLine(lines[0], rest);
      assert (lines[0] + rest)[..|lines[0]|] == lines[0] && (lines[0] + rest)[|lines[0]|..] == rest;
      LinesOfConcat(lines[1..]);
    }
  }
}
