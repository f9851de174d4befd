/** trick_cfs.py: reading the start-up file of a mission and writing the one for the simulation. */
module EsStartup {
  import opened Text

  datatype Option<T> = None | Some(value: T)

  /** [entry, priority, stack size] or, with a file, four items. */
  datatype AppDef = AppDef(entry: string, priority: string, stack: string, file: Option<string>)
  datatype LibDef = LibDef(entry: string, file: Option<string>)

  datatype Startup = Startup(
    libs: map<string, LibDef>,
    apps: map<string, AppDef>,
    entries: seq<string>,
    schedName: Option<string>)

  const EMPTY := Startup(map[], map[], [], None)

  // ---- Reading ----

  /** A stripped and collapsed line that begins with '!' ends the file. */
  predicate IsEnd(line: string) { "!" <= Join(Words(Strip(line))) }

  function LineFields(line: string): seq<string> { Fields(Clean(Join(Words(Strip(line))))) }

  function ReadFields(st: Startup, target: string, f: seq<string>): Startup {
    if |f| != 8 then st
    else if f[0] == "CFE_APP" then
      if f[3] == target then st.(schedName := Some(f[3]))
      else st.(apps := st.apps[f[3] := AppDef(f[2], f[4], f[5], Some(f[1]))], entries := st.entries + [f[3]])
    else if f[0] == "CFE_LIB" then
      st.(libs := st.libs[f[3] := LibDef(f[2], Some(f[1]))], entries := st.entries + [f[3]])
    else st
  }

  function ReadLine(st: Startup, target: string, line: string): Startup {
    if Words(Strip(line)) == [] then st else ReadFields(st, target, LineFields(line))
  }

  /** The lines up to the one that ends the file. */
  function UpToEnd(lines: seq<string>): (r: seq<string>)
    ensures forall i :: 0 <= i < |r| ==> !IsEnd(r[i])
  {
    if lines == [] || IsEnd(lines[0]) then [] else [lines[0]] + UpToEnd(lines[1..])
  }

  function ReadAll(st: Startup, target: string, lines: seq<string>): Startup {
    if lines == [] then st else ReadLine(ReadAll(st, target, lines[..|lines| - 1]), target, lines[|lines| - 1])
  }

  /** What parsing a file makes of the module's variables. */
  function Parse(st: Startup, target: string, text: string): Startup { ReadAll(st, target, UpToEnd(Lines(text))) }

  // ---- Writing ----

  ghost predicate IsLongest(names: set<string>, floor: nat, m: nat) {
    && m >= floor && (forall s :: s in names ==> |s| <= m)
    && (m == floor || exists s :: s in names && |s| == m)
  }

  lemma {:induction false} LongestExists(names: set<string>, floor: nat)
    ensures exists m: nat :: IsLongest(names, floor, m)
  {
    if names == {} {
      assert IsLongest(names, floor, floor);
    } else {
      var s :| s in names;
      LongestExists(names - {s}, floor);
      var m: nat :| IsLongest(names - {s}, floor, m);
      assert IsLongest(names, floor, if |s| > m then |s| else m);
    }
  }

  ghost function Longest(names: set<string>, floor: nat): (m: nat)
    ensures IsLongest(names, floor, m)
  {
    LongestExists(names, floor);
    var m: nat :| IsLongest(names, floor, m);
    m
  }

  const SCH_FUNC := "SCH_TRICK_AppMain"
  const SCH_FILE := "sch_trick.so"

  datatype Columns = Columns(file: nat, func: nat, name: nat)

  ghost function ColumnsOf(st: Startup, cfDir: string): Columns {
    var name := Longest(st.libs.Keys + st.apps.Keys, |"SCH_trk"|) + 1;
    Columns(name + |cfDir| + |".so,"|,
            Longest((set x | x in st.libs :: st.libs[x].entry) + (set x | x in st.apps :: st.apps[x].entry),
                    |SCH_FUNC|) + 2,
            name)
  }

  /** The seven columns before the constant end of a line. */
  datatype Item = Item(kind: string, file: string, func: string, name: string, priority: string, stack: string)

  function Written(w: Columns, it: Item): string {
    it.kind + ", " + LJust(it.file + ",", w.file) + LJust(it.func + ",", w.func) + LJust(it.name + ",", w.name)
      + RJust(it.priority + ",", 5) + RJust(it.stack + ",", 9) + " 0x0, 0;\n"
  }

  function SchedulerItem(st: Startup, cfDir: string): Item {
    Item("CFE_APP", cfDir + SCH_FILE, SCH_FUNC, if st.schedName.Some? then st.schedName.value else "SCH", "80", "8192")
  }

  function FileOf(file: Option<string>, name: string, cfDir: string, lower: string -> string): string {
    if file.Some? then file.value else cfDir + lower(name) + ".so"
  }

  /** Libraries are looked up first. A name that is defined nowhere is not written. */
  function ItemOf(st: Startup, cfDir: string, lower: string -> string, name: string): Option<Item> {
    if name in st.libs then
      var d := st.libs[name];
      Some(Item("CFE_LIB", FileOf(d.file, name, cfDir, lower), d.entry, name, "0", "0"))
    else if name in st.apps then
      var d := st.apps[name];
      Some(Item("CFE_APP", FileOf(d.file, name, cfDir, lower), d.entry, name, d.priority, d.stack))
    else None
  }

  function WriteEntries(st: Startup, cfDir: string, lower: string -> string, w: Columns, names: seq<string>)
    : seq<string>
  {
    if names == [] then []
    else
      var before := WriteEntries(st, cfDir, lower, w, names[..|names| - 1]);
      match ItemOf(st, cfDir, lower, names[|names| - 1])
      case Some(it) => before + [Written(w, it)]
      case None => before
  }

  ghost function WriteAll(st: Startup, cfDir: string, lower: string -> string, names: seq<string>): seq<string> {
    var w := ColumnsOf(st, cfDir);
    [Written(w, SchedulerItem(st, cfDir))] + WriteEntries(st, cfDir, lower, w, names)
  }

  // ---- One written line ----

  /** Free of blanks, commas and semicolons, and not empty. */
  predicate IsField(s: string) { IsWord(s) && ',' !in s && ';' !in s }

  predicate IsItem(it: Item) {
    && it.kind in {"CFE_APP", "CFE_LIB"}
    && IsField(it.file) && IsField(it.func) && IsField(it.name) && IsField(it.priority) && IsField(it.stack)
  }

  /** Every field leaves a blank before the next: the file is narrower than its column, the function too,
      the name or the priority is narrower than its own, and the stack size is. */
  predicate Readable(w: Columns, it: Item) {
    && |it.file| + 1 < w.file && |it.func| + 1 < w.func
    && (|it.name| + 1 < w.name || |it.priority| + 1 < 5)
    && |it.stack| + 1 < 9
  }

  function Pad(width: nat, s: string): nat { if width > |s| + 1 then width - (|s| + 1) else 0 }

  function Row(w: Columns, it: Item): seq<Cell> {
    [Cell(it.kind + ",", 1), Cell(it.file + ",", Pad(w.file, it.file)), Cell(it.func + ",", Pad(w.func, it.func)),
     Cell(it.name + ",", Pad(w.name, it.name) + Pad(5, it.priority)), Cell(it.priority + ",", Pad(9, it.stack)),
     Cell(it.stack + ",", 1), Cell("0x0,", 1), Cell("0;", 0)]
  }

  lemma {:induction false} SpacesAdd(a: nat, b: nat)
    ensures Spaces(a) + Spaces(b) == Spaces(a + b)
  {
  }

  lemma {:induction false} RenderStep(word: string, gap: nat, rest: seq<Cell>)
    ensures Render([Cell(word, gap)] + rest) == word + Spaces(gap) + Render(rest)
  {
    assert ([Cell(word, gap)] + rest)[1..] == rest;
  }

  /** The end of a row, from the stack size on. */
  lemma {:induction false} RenderEnd(stack: string)
    ensures Render([Cell(stack + ",", 1), Cell("0x0,", 1), Cell("0;", 0)]) == stack + "," + " 0x0, 0;"
  {
    var c, d, e := Cell(stack + ",", 1), Cell("0x0,", 1), Cell("0;", 0);
    RenderStep(e.word, e.gap, []);
    RenderStep(d.word, d.gap, [e]);
    RenderStep(c.word, c.gap, [d, e]);
    assert [e] + [] == [e] && [d] + [e] == [d, e] && [c] + [d, e] == [c, d, e];
    assert Spaces(0) == "" && Spaces(1) == " ";
    assert Render([d, e]) == "0x0, 0;";
  }

  lemma {:induction false} Assoc(a: string, b: string, c: string)
    ensures (a + b) + c == a + (b + c)
  {
  }

  /** From the priority on. */
  lemma {:induction false} RenderBack(w: Columns, it: Item)
    ensures Spaces(Pad(5, it.priority)) + Render(Row(w, it)[4..])
         == RJust(it.priority + ",", 5) + RJust(it.stack + ",", 9) + " 0x0, 0;"
  {
    var r := Row(w, it);
    var end := it.stack + ",";
    RenderEnd(it.stack);
    assert r[5..] == [Cell(end, 1), Cell("0x0,", 1), Cell("0;", 0)];
    assert r[4..] == [r[4]] + r[5..];
    RenderStep(r[4].word, r[4].gap, r[5..]);
    var gap, p, q := Spaces(Pad(5, it.priority)), it.priority + ",", Spaces(Pad(9, it.stack));
    assert Render(r[4..]) == (p + q) + (end + " 0x0, 0;");
    Assoc(gap, p + q, end + " 0x0, 0;");
    Assoc(gap, p, q);
    Assoc(gap + p, q, end + " 0x0, 0;");
    Assoc(q, end, " 0x0, 0;");
    Assoc(gap + p, q + end, " 0x0, 0;");
  }

  lemma {:induction false} RenderFront(w: Columns, it: Item, back: string)
    requires Spaces(Pad(5, it.priority)) + Render(Row(w, it)[4..]) == back
    ensures Render(Row(w, it)) == it.kind + ", " + LJust(it.file + ",", w.file) + LJust(it.func + ",", w.func)
                                  + LJust(it.name + ",", w.name) + back
  {
    var r := Row(w, it);
    var kind, file := it.kind + ", ", LJust(it.file + ",", w.file);
    var func, name := LJust(it.func + ",", w.func), LJust(it.name + ",", w.name);
    assert r[3..] == [r[3]] + r[4..] && r[2..] == [r[2]] + r[3..] && r[1..] == [r[1]] + r[2..] && r == [r[0]] + r[1..];
    RenderStep(r[3].word, r[3].gap, r[4..]);
    SpacesAdd(Pad(w.name, it.name), Pad(5, it.priority));
    Assoc(it.name + ",", Spaces(Pad(w.name, it.name)), Spaces(Pad(5, it.priority)));
    Assoc(name, Spaces(Pad(5, it.priority)), Render(r[4..]));
    assert Render(r[3..]) == name + back;
    RenderStep(r[2].word, r[2].gap, r[3..]);
    assert Render(r[2..]) == func + (name + back);
    RenderStep(r[1].word, r[1].gap, r[2..]);
    assert Render(r[1..]) == file + (func + (name + back));
    RenderStep(r[0].word, r[0].gap, r[1..]);
    assert Spaces(1) == " ";
    Assoc(it.kind, ",", " ");
    assert Render(r) == kind + (file + (func + (name + back)));
    Assoc(kind, file, func + (name + back));
    Assoc(kind + file, func, name + back);
    Assoc(kind + file + func, name, back);
  }

  lemma {:induction false} WrittenIsRow(w: Columns, it: Item)
    ensures Written(w, it) == Render(Row(w, it)) + "\n"
  {
    var front := it.kind + ", " + LJust(it.file + ",", w.file) + LJust(it.func + ",", w.func)
                 + LJust(it.name + ",", w.name);
    var prio, stack := RJust(it.priority + ",", 5), RJust(it.stack + ",", 9);
    RenderBack(w, it);
    RenderFront(w, it, prio + stack + " 0x0, 0;");
    Assoc(front, prio + stack, " 0x0, 0;");
    Assoc(front, prio, stack);
    Assoc(front + prio + stack, " 0x0, 0;", "\n");
    assert " 0x0, 0;" + "\n" == " 0x0, 0;\n";
  }

  lemma {:induction false} WordsOfRowAll(w: Columns, it: Item)
    requires IsItem(it)
    ensures AllWords(Row(w, it)) && |Row(w, it)| == 8
    ensures Apart(Row(w, it)) <==> Readable(w, it)
  {
    var r := Row(w, it);
    WordComma(it.kind);
    WordComma(it.file);
    WordComma(it.func);
    WordComma(it.name);
    WordComma(it.priority);
    WordComma(it.stack);
    assert IsWord("0x0,") && IsWord("0;");
    assert r[0].gap == r[5].gap == r[6].gap == 1;
    assert Apart(r) <==> r[1].gap > 0 && r[2].gap > 0 && r[3].gap > 0 && r[4].gap > 0;
  }

  lemma {:induction false} WordComma(s: string)
    requires IsWord(s)
    ensures IsWord(s + ",")
  {
  }

  lemma {:induction false} FieldsOfLine(line: string)
    requires Words(line) != []
    ensures Words(Strip(line)) != [] && LineFields(line) == CleanAll(Words(line))
  {
    WordsStrip(line);
    FieldsOfJoin(Words(line));
  }

  function ItemFields(it: Item): seq<string> {
    [it.kind, it.file, it.func, it.name, it.priority, it.stack, "0x0", "0"]
  }

  /** What the parser finds in a written line: all eight fields if the line is readable; otherwise two of
      them have run together and it finds fewer. */
  lemma {:induction false} ReadBack(w: Columns, it: Item)
    requires IsItem(it)
    ensures Words(Strip(Written(w, it))) != []
    ensures Readable(w, it) ==>
              LineFields(Written(w, it)) == ItemFields(it)
    ensures |LineFields(Written(w, it))| == 8 ==> Readable(w, it)
  {
    var line, r := Written(w, it), Row(w, it);
    WrittenIsRow(w, it);
    WordsOfRowAll(w, it);
    WordsOfRow(r);
    WordsTrailing(Render(r), '\n');
    FieldsOfLine(line);
    if Readable(w, it) {
      CleanRow(w, it);
    } else {
      assert !Apart(r);
    }
  }

  lemma {:induction false} CleanCell(w: Columns, it: Item, i: nat)
    requires IsItem(it) && i < 8
    ensures Clean(Row(w, it)[i].word) == ItemFields(it)[i]
  {
    if i < 6 {
      CleanField(ItemFields(it)[i], ',');
    } else {
      CleanEnd();
    }
  }

  lemma {:induction false} CleanEnd()
    ensures Clean("0x0,") == "0x0" && Clean("0;") == "0"
  {
    CleanField("0x0", ',');
    CleanField("0", ';');
    assert "0x0" + [','] == "0x0," && "0" + [';'] == "0;";
  }

  lemma {:induction false} CleanRow(w: Columns, it: Item)
    requires IsItem(it)
    ensures CleanAll(CellWords(Row(w, it))) == ItemFields(it)
  {
    forall i: nat | i < 8 ensures Clean(Row(w, it)[i].word) == ItemFields(it)[i] {
      CleanCell(w, it, i);
    }
  }

  /** A written line is one line of the file and does not end it. */
  lemma {:induction false} WrittenGoesOn(w: Columns, it: Item)
    requires IsItem(it)
    ensures !IsEnd(Written(w, it))
  {
    var line := Written(w, it);
    assert line[0] == 'C';
    WordsStrip(line);
    var ws := Words(line);
    var n := WordLen(line);
    assert ws == [line[..n]] + Words(line[n..]);
    assert Join(ws)[0] == ws[0][0] == 'C';
  }

  lemma {:induction false} WrittenIsLine(w: Columns, it: Item)
    requires IsItem(it)
    ensures IsLine(Written(w, it))
  {
    var front := it.kind + ", " + LJust(it.file + ",", w.file) + LJust(it.func + ",", w.func)
                 + LJust(it.name + ",", w.name);
    NoBreak(it.file, w.file);
    NoBreak(it.func, w.func);
    NoBreak(it.name, w.name);
    NoBreak(it.priority, 5);
    NoBreak(it.stack, 9);
    assert '\n' !in front;
    var all := front + RJust(it.priority + ",", 5) + RJust(it.stack + ",", 9) + " 0x0, 0;";
    assert '\n' !in all;
    assert Written(w, it) == all + "\n";
    forall i | 0 <= i < |all| ensures all[i] != '\n' {
      assert all[i] in all;
    }
  }

  lemma {:induction false} NoBreak(s: string, width: nat)
    requires IsWord(s)
    ensures '\n' !in LJust(s + ",", width) && '\n' !in RJust(s + ",", width)
  {
    assert IsSpace('\n');
  }

  // ---- The round trip ----

  /** Variables as a parse leaves them, for a file of distinct names in which the target scheduler was
      found: each name is defined once, with a file, and its items are fields. */
  ghost predicate WellFormed(st: Startup, target: string) {
    && st.schedName == Some(target) && IsField(target)
    && NoDuplicates(st.entries)
    && (forall n :: n in st.libs || n in st.apps <==> n in st.entries)
    && st.libs.Keys !! st.apps.Keys
    && (forall n :: n in st.libs ==>
          var d := st.libs[n]; IsField(n) && d.file.Some? && IsField(d.file.value) && IsField(d.entry))
    && (forall n :: n in st.apps ==>
          var d := st.apps[n];
          && IsField(n) && n != target && d.file.Some? && IsField(d.file.value) && IsField(d.entry)
          && IsField(d.priority) && IsField(d.stack))
  }

  function TheItem(st: Startup, cfDir: string, lower: string -> string, name: string): Item
    requires name in st.libs || name in st.apps
  {
    ItemOf(st, cfDir, lower, name).value
  }

  /** Every line that would be written is readable. */
  ghost predicate AllReadable(st: Startup, cfDir: string, lower: string -> string) {
    var w := ColumnsOf(st, cfDir);
    && Readable(w, SchedulerItem(st, cfDir))
    && forall n :: n in st.entries && (n in st.libs || n in st.apps) ==> Readable(w, TheItem(st, cfDir, lower, n))
  }

  /** The names among `names` whose line is readable. */
  ghost function ReadableNames(st: Startup, cfDir: string, lower: string -> string, w: Columns, names: seq<string>)
    : seq<string>
    requires forall n :: n in names ==> n in st.libs || n in st.apps
  {
    if names == [] then []
    else
      var rest, last := names[..|names| - 1], names[|names| - 1];
      ReadableNames(st, cfDir, lower, w, rest) + (if Readable(w, TheItem(st, cfDir, lower, last)) then [last] else [])
  }

  /** `st` cut down to the definitions of `names`. */
  ghost function Only(st: Startup, names: seq<string>, sched: Option<string>): Startup {
    Startup(map n | n in st.libs && n in names :: st.libs[n], map n | n in st.apps && n in names :: st.apps[n],
            names, sched)
  }

  lemma {:induction false} ItemsAreFields(st: Startup, target: string, cfDir: string, lower: string -> string,
                                              n: string)
    requires WellFormed(st, target) && n in st.entries
    ensures n in st.libs || n in st.apps
    ensures ItemOf(st, cfDir, lower, n).Some? && IsItem(TheItem(st, cfDir, lower, n))
  {
    assert IsWord("0") && ',' !in "0" && ';' !in "0";
  }

  /** Reading the line of one more name adds that name's definition, if the line is readable. */
  lemma {:induction false} ReadOneMore(st: Startup, target: string, cfDir: string, lower: string -> string, w: Columns,
                    names: seq<string>, n: string, sched: Option<string>)
    requires WellFormed(st, target) && n in st.entries && n !in names
    ensures n in st.libs || n in st.apps
    ensures ReadLine(Only(st, names, sched), target, Written(w, TheItem(st, cfDir, lower, n)))
         == if Readable(w, TheItem(st, cfDir, lower, n)) then Only(st, names + [n], sched) else Only(st, names, sched)
  {
    ItemsAreFields(st, target, cfDir, lower, n);
    var it := TheItem(st, cfDir, lower, n);
    var line := Written(w, it);
    ReadBack(w, it);
    if Readable(w, it) {
      ReadItem(Only(st, names, sched), target, it);
      OnlyOneMore(st, names, n, sched);
    }
  }

  lemma {:induction false} ReadItem(st: Startup, target: string, it: Item)
    requires (it.kind == "CFE_APP" && it.name != target) || it.kind == "CFE_LIB"
    ensures ReadFields(st, target, ItemFields(it))
         == if it.kind == "CFE_LIB" then
              st.(libs := st.libs[it.name := LibDef(it.func, Some(it.file))], entries := st.entries + [it.name])
            else
              st.(apps := st.apps[it.name := AppDef(it.func, it.priority, it.stack, Some(it.file))],
                  entries := st.entries + [it.name])
  {
    assert "CFE_LIB"[4] != "CFE_APP"[4];
  }

  lemma {:induction false} OnlyOneMore(st: Startup, names: seq<string>, n: string, sched: Option<string>)
    requires n !in names && (n in st.libs <==> n !in st.apps)
    ensures var before, after := Only(st, names, sched), Only(st, names + [n], sched);
            if n in st.libs then after == before.(libs := before.libs[n := st.libs[n]], entries := names + [n])
            else after == before.(apps := before.apps[n := st.apps[n]], entries := names + [n])
  {
    var before, after := Only(st, names, sched), Only(st, names + [n], sched);
    if n in st.libs {
      assert after.libs == before.libs[n := st.libs[n]];
      assert after.apps == before.apps;
    } else {
      assert after.apps == before.apps[n := st.apps[n]];
      assert after.libs == before.libs;
    }
  }

  ghost predicate NoDuplicates(names: seq<string>) {
    forall i, j :: 0 <= i < j < |names| ==> names[i] != names[j]
  }

  lemma {:induction false} ReadableNamesAre(st: Startup, cfDir: string, lower: string -> string, w: Columns,
                                                names: seq<string>)
    requires forall n :: n in names ==> n in st.libs || n in st.apps
    ensures forall n :: n in ReadableNames(st, cfDir, lower, w, names)
                        <==> n in names && (n in st.libs || n in st.apps) && Readable(w, TheItem(st, cfDir, lower, n))
  {
    if names != [] {
      var rest, last := names[..|names| - 1], names[|names| - 1];
      ReadableNamesAre(st, cfDir, lower, w, rest);
      assert names == rest + [last];
    }
  }

  lemma {:induction false} AllNamesReadable(st: Startup, cfDir: string, lower: string -> string, w: Columns,
                                                names: seq<string>)
    requires forall n :: n in names ==> (n in st.libs || n in st.apps) && Readable(w, TheItem(st, cfDir, lower, n))
    ensures ReadableNames(st, cfDir, lower, w, names) == names
  {
    if names != [] {
      AllNamesReadable(st, cfDir, lower, w, names[..|names| - 1]);
      assert names[|names| - 1] in names;
    }
  }

  /** Reading the lines written for distinct names brings back the definitions of the readable ones. */
  lemma {:induction false} ReadEntries(st: Startup, target: string, cfDir: string, lower: string -> string, w: Columns,
                                       names: seq<string>, sched: Option<string>)
    requires WellFormed(st, target) && NoDuplicates(names) && forall n :: n in names ==> n in st.entries
    ensures forall n :: n in names ==> n in st.libs || n in st.apps
    ensures ReadAll(Only(st, [], sched), target, WriteEntries(st, cfDir, lower, w, names))
         == Only(st, ReadableNames(st, cfDir, lower, w, names), sched)
  {
    if names != [] {
      var rest, last := names[..|names| - 1], names[|names| - 1];
      ReadEntries(st, target, cfDir, lower, w, rest, sched);
      ReadableNamesAre(st, cfDir, lower, w, rest);
      ItemsAreFields(st, target, cfDir, lower, last);
      assert last !in rest;
      var kept := ReadableNames(st, cfDir, lower, w, rest);
      ReadOneMore(st, target, cfDir, lower, w, kept, last, sched);
      ReadAllPush(Only(st, [], sched), target, WriteEntries(st, cfDir, lower, w, rest),
                  Written(w, TheItem(st, cfDir, lower, last)));
      assert kept + [] == kept;
    }
  }

  lemma {:induction false} ReadAllPush(st: Startup, target: string, lines: seq<string>, line: string)
    ensures ReadAll(st, target, lines + [line]) == ReadLine(ReadAll(st, target, lines), target, line)
  {
    assert (lines + [line])[..|lines|] == lines;
  }

  lemma {:induction false} ReadAllConcat(st: Startup, target: string, a: seq<string>, b: seq<string>)
    ensures ReadAll(st, target, a + b) == ReadAll(ReadAll(st, target, a), target, b)
  {
    if b == [] {
      assert a + b == a;
    } else {
      assert (a + b)[..|a + b| - 1] == a + b[..|b| - 1];
      ReadAllConcat(st, target, a, b[..|b| - 1]);
    }
  }

  lemma {:induction false} SchedulerIsItem(st: Startup, target: string, cfDir: string)
    requires st.schedName == Some(target) && IsField(target) && IsField(cfDir)
    ensures IsItem(SchedulerItem(st, cfDir))
  {
    assert IsField(SCH_FILE) && IsField(SCH_FUNC) && IsField("80") && IsField("8192");
  }

  lemma {:induction false} ReadSchedulerFields(target: string, it: Item)
    requires it.kind == "CFE_APP" && it.name == target
    ensures ReadFields(EMPTY, target, ItemFields(it)) == EMPTY.(schedName := Some(target))
  {
  }

  lemma {:induction false} ReadScheduler(st: Startup, target: string, cfDir: string, w: Columns)
    requires st.schedName == Some(target) && IsField(target) && IsField(cfDir)
    ensures ReadLine(EMPTY, target, Written(w, SchedulerItem(st, cfDir)))
         == EMPTY.(schedName := if Readable(w, SchedulerItem(st, cfDir)) then Some(target) else None)
  {
    var it := SchedulerItem(st, cfDir);
    SchedulerIsItem(st, target, cfDir);
    ReadBack(w, it);
    ReadSchedulerFields(target, it);
  }

  lemma {:induction false} OnlyNothing(st: Startup, sched: Option<string>)
    ensures Only(st, [], sched) == EMPTY.(schedName := sched)
  {
  }

  lemma {:induction false} UpToEndOfAll(lines: seq<string>)
    requires forall i :: 0 <= i < |lines| ==> !IsEnd(lines[i])
    ensures UpToEnd(lines) == lines
  {
    if lines != [] {
      UpToEndOfAll(lines[1..]);
    }
  }

  lemma {:induction false} EntriesGoOn(st: Startup, target: string, cfDir: string, lower: string -> string,
                                           w: Columns, names: seq<string>)
    requires WellFormed(st, target) && forall n :: n in names ==> n in st.entries
    ensures forall l :: l in WriteEntries(st, cfDir, lower, w, names) ==> IsLine(l) && !IsEnd(l)
  {
    if names != [] {
      var last := names[|names| - 1];
      EntriesGoOn(st, target, cfDir, lower, w, names[..|names| - 1]);
      ItemsAreFields(st, target, cfDir, lower, last);
      WrittenIsLine(w, TheItem(st, cfDir, lower, last));
      WrittenGoesOn(w, TheItem(st, cfDir, lower, last));
    }
  }

  /** The scheduler name that reading back a written file gives. */
  ghost function SchedRead(st: Startup, target: string, cfDir: string): Option<string> {
    if Readable(ColumnsOf(st, cfDir), SchedulerItem(st, cfDir)) then Some(target) else None
  }

  /** The parser reaches the end of a written file and sees its lines as they were written. */
  lemma {:induction false} WrittenLinesRead(st: Startup, target: string, cfDir: string, lower: string -> string)
    requires WellFormed(st, target) && IsField(cfDir)
    ensures var lines := WriteAll(st, cfDir, lower, st.entries); UpToEnd(Lines(Concat(lines))) == lines
  {
    var w := ColumnsOf(st, cfDir);
    var lines := WriteAll(st, cfDir, lower, st.entries);
    SchedulerIsItem(st, target, cfDir);
    WrittenIsLine(w, SchedulerItem(st, cfDir));
    WrittenGoesOn(w, SchedulerItem(st, cfDir));
    EntriesGoOn(st, target, cfDir, lower, w, st.entries);
    forall i | 0 <= i < |lines| ensures IsLine(lines[i]) && !IsEnd(lines[i]) {
      assert i > 0 ==> lines[i] in WriteEntries(st, cfDir, lower, w, st.entries);
    }
    LinesOfConcat(lines);
    UpToEndOfAll(lines);
  }

  lemma {:induction false} ReadFirst(st: Startup, target: string, first: string, rest: seq<string>)
    ensures ReadAll(st, target, [first] + rest) == ReadAll(ReadLine(st, target, first), target, rest)
  {
    ReadAllConcat(st, target, [first], rest);
    assert [first][..0] == [];
    assert ReadAll(st, target, []) == st;
  }

  /** What reading back a written file gives. */
  lemma {:induction false} ReadWritten(st: Startup, target: string, cfDir: string, lower: string -> string)
    requires WellFormed(st, target) && IsField(cfDir)
    ensures Parse(EMPTY, target, Concat(WriteAll(st, cfDir, lower, st.entries)))
         == Only(st, ReadableNames(st, cfDir, lower, ColumnsOf(st, cfDir), st.entries), SchedRead(st, target, cfDir))
  {
    var w := ColumnsOf(st, cfDir);
    WrittenLinesRead(st, target, cfDir, lower);
    ReadFirst(EMPTY, target, Written(w, SchedulerItem(st, cfDir)), WriteEntries(st, cfDir, lower, w, st.entries));
    ReadScheduler(st, target, cfDir, w);
    OnlyNothing(st, SchedRead(st, target, cfDir));
    ReadEntries(st, target, cfDir, lower, w, st.entries, SchedRead(st, target, cfDir));
  }

  lemma {:induction false} OnlyIsWhole(st: Startup, target: string, names: seq<string>, sched: Option<string>)
    requires WellFormed(st, target)
    ensures Only(st, names, sched) == st <==> names == st.entries && sched == Some(target)
  {
    var r := Only(st, names, sched);
    if names == st.entries {
      assert r.libs == st.libs && r.apps == st.apps;
    }
  }

  /** The round trip succeeds if and only if every line is readable: parsing the file that
      run_default_es_startup writes gives back the same libraries, applications, order and scheduler name. */
  lemma {:induction false} RoundTrip(st: Startup, target: string, cfDir: string, lower: string -> string)
    requires WellFormed(st, target) && IsField(cfDir)
    ensures Parse(EMPTY, target, Concat(WriteAll(st, cfDir, lower, st.entries))) == st
       <==> AllReadable(st, cfDir, lower)
  {
    var w := ColumnsOf(st, cfDir);
    var kept := ReadableNames(st, cfDir, lower, w, st.entries);
    ReadWritten(st, target, cfDir, lower);
    OnlyIsWhole(st, target, kept, SchedRead(st, target, cfDir));
    ReadableNamesAre(st, cfDir, lower, w, st.entries);
    if AllReadable(st, cfDir, lower) {
      AllNamesReadable(st, cfDir, lower, w, st.entries);
    }
  }

  /** The scheduler's own line is readable exactly when some library or application has a name of more than
      eight characters; the function columns are always wide enough. */
  lemma {:induction false} SchedulerReadable(st: Startup, cfDir: string)
    ensures Readable(ColumnsOf(st, cfDir), SchedulerItem(st, cfDir))
       <==> exists n :: (n in st.libs || n in st.apps) && |n| > 8
  {
    var w := ColumnsOf(st, cfDir);
    var names := st.libs.Keys + st.apps.Keys;
    assert forall n :: n in names <==> n in st.libs || n in st.apps;
    assert w.name == Longest(names, 7) + 1;
  }

  // ---- What ends a file, and what a line does ----

  /** The first character that is not a blank is an exclamation mark. */
  ghost predicate StartsWithMark(line: string) {
    exists k :: 0 <= k < |line| && line[k] == '!' && forall j :: 0 <= j < k ==> IsSpace(line[j])
  }

  lemma {:induction false} EndIsMark(line: string)
    ensures IsEnd(line) <==> StartsWithMark(line)
  {
    WordsStrip(line);
    var k := FirstNonBlank(line);
    if k < |line| {
      var ws := Words(line);
      assert Join(ws)[0] == ws[0][0] == line[k];
      if StartsWithMark(line) {
        var m :| 0 <= m < |line| && line[m] == '!' && forall j :: 0 <= j < m ==> IsSpace(line[j]);
        assert m == k;
      }
    } else {
      assert forall m :: 0 <= m < |line| ==> IsSpace(line[m]);
    }
  }

  lemma {:induction false} UpToEndStops(before: seq<string>, end: string, after: seq<string>)
    requires IsEnd(end)
    ensures UpToEnd(before + [end] + after) == UpToEnd(before)
  {
    if before != [] {
      assert (before + [end] + after)[1..] == before[1..] + [end] + after;
      UpToEndStops(before[1..], end, after);
    }
  }

  /** Nothing from a line on that starts with an exclamation mark has any effect: such a line, with whole
      lines before it and anything after it, ends the file. */
  lemma {:induction false} MarkEndsFile(st: Startup, target: string, before: string, end: string, after: string)
    requires before == [] || before[|before| - 1] == '\n'
    requires StartsWithMark(end) && forall i :: 0 <= i < |end| - 1 ==> end[i] != '\n'
    requires after == [] || end[|end| - 1] == '\n'
    ensures Parse(st, target, before + end + after) == Parse(st, target, before)
  {
    EndIsMark(end);
    assert before + end + after == before + (end + after);
    LinesOfParts(before, end + after);
    LineLenIs(end, after);
    assert (end + after)[..|end|] == end && (end + after)[|end|..] == after;
    assert Lines(before) + ([end] + Lines(after)) == Lines(before) + [end] + Lines(after);
    UpToEndStops(Lines(before), end, Lines(after));
  }

  /** And without such a line all lines are read. */
  lemma {:induction false} WithoutMarkAllIsRead(st: Startup, target: string, text: string)
    requires forall i :: 0 <= i < |Lines(text)| ==> !StartsWithMark(Lines(text)[i])
    ensures Parse(st, target, text) == ReadAll(st, target, Lines(text))
  {
    forall i | 0 <= i < |Lines(text)| ensures !IsEnd(Lines(text)[i]) {
      EndIsMark(Lines(text)[i]);
    }
    UpToEndOfAll(Lines(text));
  }

  /** What a line does, by its blank-separated words without commas and semicolons. Only a line of exactly
      eight words that begins with one of the two keywords has an effect. */
  lemma {:induction false} LineEffect(st: Startup, target: string, line: string)
    ensures var f, st' := CleanAll(Words(line)), ReadLine(st, target, line);
            if |f| == 8 && f[0] == "CFE_APP" && f[3] == target then st' == st.(schedName := Some(target))
            else if |f| == 8 && f[0] == "CFE_APP" then
              && st'.apps == st.apps[f[3] := AppDef(f[2], f[4], f[5], Some(f[1]))]
              && st'.entries == st.entries + [f[3]] && st'.libs == st.libs && st'.schedName == st.schedName
            else if |f| == 8 && f[0] == "CFE_LIB" then
              && st'.libs == st.libs[f[3] := LibDef(f[2], Some(f[1]))]
              && st'.entries == st.entries + [f[3]] && st'.apps == st.apps && st'.schedName == st.schedName
            else st' == st
  {
    WordsStrip(line);
    if Words(line) != [] {
      FieldsOfLine(line);
    }
  }

  // ---- What is written, in literal terms ----

  /** The first line of every written file is the scheduler's. */
  lemma {:induction false} FirstWritten(st: Startup, cfDir: string, lower: string -> string, names: seq<string>)
    ensures var w, name := ColumnsOf(st, cfDir), if st.schedName.Some? then st.schedName.value else "SCH";
            WriteAll(st, cfDir, lower, names)[0]
            == "CFE_APP, " + LJust(cfDir + "sch_trick.so,", w.file) + LJust("SCH_TRICK_AppMain,", w.func)
               + LJust(name + ",", w.name) + "  80," + "    8192," + " 0x0, 0;\n"
  {
    assert cfDir + SCH_FILE + "," == cfDir + "sch_trick.so,";
    assert SCH_FUNC + "," == "SCH_TRICK_AppMain,";
    assert RJust("80" + ",", 5) == "  80," && RJust("8192" + ",", 9) == "    8192,";
    assert "CFE_APP" + ", " == "CFE_APP, ";
  }

  /** After it each name has one line if it is defined, and none if not, in the order of the list. */
  lemma {:induction false} EntriesInOrder(st: Startup, cfDir: string, lower: string -> string, w: Columns,
                                          a: seq<string>, b: seq<string>)
    ensures WriteEntries(st, cfDir, lower, w, a + b)
         == WriteEntries(st, cfDir, lower, w, a) + WriteEntries(st, cfDir, lower, w, b)
    ensures |a| == 1 ==>
              WriteEntries(st, cfDir, lower, w, a)
              == if a[0] in st.libs || a[0] in st.apps then [Written(w, TheItem(st, cfDir, lower, a[0]))] else []
    decreases |b|
  {
    if |a| == 1 {
      assert a[..0] == [];
    }
    if b == [] {
      assert a + b == a;
    } else {
      assert (a + b)[..|a + b| - 1] == a + b[..|b| - 1];
      EntriesInOrder(st, cfDir, lower, w, a, b[..|b| - 1]);
    }
  }

  /** The columns are as narrow as they can be: one more than the longest name or "SCH_trk", two more than the
      longest function or the scheduler's, and the file column four more than directory and name column. */
  lemma {:induction false} ColumnsAreTight(st: Startup, cfDir: string)
    ensures var w := ColumnsOf(st, cfDir);
            && w.file == w.name + |cfDir| + 4
            && w.name >= 8 && (forall n :: n in st.libs || n in st.apps ==> |n| + 1 <= w.name)
            && (w.name == 8 || exists n :: (n in st.libs || n in st.apps) && |n| + 1 == w.name)
            && w.func >= 19
            && (forall n :: n in st.libs ==> |st.libs[n].entry| + 2 <= w.func)
            && (forall n :: n in st.apps ==> |st.apps[n].entry| + 2 <= w.func)
            && (w.func == 19 || (exists n :: n in st.libs && |st.libs[n].entry| + 2 == w.func)
                || exists n :: n in st.apps && |st.apps[n].entry| + 2 == w.func)
  {
    var w := ColumnsOf(st, cfDir);
    var names := st.libs.Keys + st.apps.Keys;
    var funcs := (set x | x in st.libs :: st.libs[x].entry) + (set x | x in st.apps :: st.apps[x].entry);
    assert forall n :: n in names <==> n in st.libs || n in st.apps;
    assert IsLongest(names, 7, w.name - 1) && IsLongest(funcs, 17, w.func - 2);
    assert forall n :: n in st.libs ==> st.libs[n].entry in funcs;
    assert forall n :: n in st.apps ==> st.apps[n].entry in funcs;
  }

  // ---- Definitions added by the user ----

  function AddApp(st: Startup, name: string, d: AppDef): Startup { st.(apps := st.apps[name := d]) }

  function AddLib(st: Startup, name: string, entry: string): Startup {
    st.(libs := st.libs[name := LibDef(entry, None)])
  }

  /** The column of functions has room for every one, and the column of files for the default file of every
      name. */
  lemma {:induction false} ColumnsFit(st: Startup, cfDir: string, lower: string -> string, n: string)
    requires n in st.libs || n in st.apps
    ensures var w, it := ColumnsOf(st, cfDir), TheItem(st, cfDir, lower, n);
            && |it.func| + 1 < w.func && |n| + 1 <= w.name
            && (|lower(n)| == |n| ==> |cfDir + lower(n) + ".so"| + 1 < w.file)
  {
    var funcs := (set x | x in st.libs :: st.libs[x].entry) + (set x | x in st.apps :: st.apps[x].entry);
    assert TheItem(st, cfDir, lower, n).func in funcs;
    assert n in st.libs.Keys + st.apps.Keys;
  }

  /** An added application, unless a library of that name hides it, is written with its file or the default
      one; a parser in any state reads exactly this definition back, if the line is readable. With the
      default file it is unless the priority or the stack size is too long. No other name's line gets
      other fields. */
  lemma {:induction false} AddedAppIsReadBack(st: Startup, target: string, cfDir: string, lower: string -> string,
                           name: string, d: AppDef, reader: Startup)
    requires name !in st.libs && name != target && IsField(name)
    requires IsField(d.entry) && IsField(d.priority) && IsField(d.stack) && IsField(FileOf(d.file, name, cfDir, lower))
    ensures var st' := AddApp(st, name, d);
            var w, it := ColumnsOf(st', cfDir), TheItem(st', cfDir, lower, name);
            && ReadLine(reader, target, Written(w, it))
               == (if Readable(w, it) then
                     reader.(apps := reader.apps[name := d.(file := Some(FileOf(d.file, name, cfDir, lower)))],
                             entries := reader.entries + [name])
                   else reader)
            && (d.file == None && |lower(name)| == |name| ==>
                  (Readable(w, it) <==> (|name| + 1 < w.name || |d.priority| <= 3) && |d.stack| <= 7))
            && forall n :: n != name ==> ItemOf(st', cfDir, lower, n) == ItemOf(st, cfDir, lower, n)
  {
    var st' := AddApp(st, name, d);
    var w, it := ColumnsOf(st', cfDir), TheItem(st', cfDir, lower, name);
    ColumnsFit(st', cfDir, lower, name);
    ReadBack(w, it);
    ReadItem(reader, target, it);
  }

  /** An added library is always read back, with the default file, whatever application it hides. */
  lemma {:induction false} AddedLibIsReadBack(st: Startup, target: string, cfDir: string, lower: string -> string,
                           name: string, entry: string, reader: Startup)
    requires IsField(name) && IsField(entry) && IsField(cfDir + lower(name) + ".so") && |lower(name)| == |name|
    ensures var st' := AddLib(st, name, entry);
            var line := Written(ColumnsOf(st', cfDir), TheItem(st', cfDir, lower, name));
            && ReadLine(reader, target, line)
               == reader.(libs := reader.libs[name := LibDef(entry, Some(cfDir + lower(name) + ".so"))],
                          entries := reader.entries + [name])
            && forall n :: n != name ==> ItemOf(st', cfDir, lower, n) == ItemOf(st, cfDir, lower, n)
  {
    var st' := AddLib(st, name, entry);
    var w, it := ColumnsOf(st', cfDir), TheItem(st', cfDir, lower, name);
    ColumnsFit(st', cfDir, lower, name);
    ZeroIsField();
    ReadBack(w, it);
    ReadItem(reader, target, it);
  }

  lemma {:induction false} ZeroIsField()
    ensures IsField("0")
  {
    assert IsWord("0") && ',' !in "0" && ';' !in "0";
  }

  // ---- What a parse always leaves behind ----

  /** No blanks, commas or semicolons; it may be empty. */
  predicate IsPart(s: string) { forall i :: 0 <= i < |s| ==> !IsSpace(s[i]) && s[i] != ',' && s[i] != ';' }

  lemma {:induction false} CleanIsPart(w: string)
    requires IsWord(w)
    ensures IsPart(Clean(w))
  {
    RemoveKeeps(w, ',');
    RemoveKeeps(Remove(w, ','), ';');
    forall i | 0 <= i < |Clean(w)| ensures !IsSpace(Clean(w)[i]) && Clean(w)[i] != ',' && Clean(w)[i] != ';' {
      assert Clean(w)[i] in Clean(w);
      assert Clean(w)[i] in w;
    }
  }

  ghost predicate Parsed(st: Startup, target: string) {
    && (st.schedName == None || st.schedName == Some(target))
    && (forall n :: n in st.libs || n in st.apps <==> n in st.entries)
    && (NoDuplicates(st.entries) ==> st.libs.Keys !! st.apps.Keys)
    && (forall n :: n in st.libs ==>
          var d := st.libs[n]; IsPart(n) && d.file.Some? && IsPart(d.file.value) && IsPart(d.entry))
    && (forall n :: n in st.apps ==>
          var d := st.apps[n];
          && IsPart(n) && n != target && d.file.Some? && IsPart(d.file.value) && IsPart(d.entry)
          && IsPart(d.priority) && IsPart(d.stack))
  }

  lemma {:induction false} MoreDuplicates(names: seq<string>, n: string)
    requires NoDuplicates(names + [n])
    ensures NoDuplicates(names) && n !in names
  {
    var more := names + [n];
    assert forall i :: 0 <= i < |names| ==> more[i] == names[i];
    assert forall i :: 0 <= i < |names| ==> more[i] != more[|names|];
  }

  lemma {:induction false} AppParsed(st: Startup, target: string, n: string, d: AppDef)
    requires Parsed(st, target) && n != target && d.file.Some?
    requires IsPart(n) && IsPart(d.file.value) && IsPart(d.entry) && IsPart(d.priority) && IsPart(d.stack)
    ensures Parsed(st.(apps := st.apps[n := d], entries := st.entries + [n]), target)
  {
    if NoDuplicates(st.entries + [n]) {
      MoreDuplicates(st.entries, n);
    }
  }

  lemma {:induction false} LibParsed(st: Startup, target: string, n: string, d: LibDef)
    requires Parsed(st, target) && d.file.Some?
    requires IsPart(n) && IsPart(d.file.value) && IsPart(d.entry)
    ensures Parsed(st.(libs := st.libs[n := d], entries := st.entries + [n]), target)
  {
    if NoDuplicates(st.entries + [n]) {
      MoreDuplicates(st.entries, n);
    }
  }

  lemma {:induction false} ReadFieldsParsed(st: Startup, target: string, f: seq<string>)
    requires Parsed(st, target) && forall i :: 0 <= i < |f| ==> IsPart(f[i])
    ensures Parsed(ReadFields(st, target, f), target)
  {
    if |f| == 8 && f[0] == "CFE_APP" && f[3] != target {
      AppParsed(st, target, f[3], AppDef(f[2], f[4], f[5], Some(f[1])));
    } else if |f| == 8 && f[0] == "CFE_LIB" {
      LibParsed(st, target, f[3], LibDef(f[2], Some(f[1])));
    }
  }

  lemma {:induction false} ReadAllParsed(target: string, lines: seq<string>)
    ensures Parsed(ReadAll(EMPTY, target, lines), target)
  {
    if lines != [] {
      var line := lines[|lines| - 1];
      ReadAllParsed(target, lines[..|lines| - 1]);
      WordsStrip(line);
      if Words(line) != [] {
        FieldsOfLine(line);
        forall i | 0 <= i < |LineFields(line)| ensures IsPart(LineFields(line)[i]) {
          CleanIsPart(Words(line)[i]);
        }
        ReadFieldsParsed(ReadAll(EMPTY, target, lines[..|lines| - 1]), target, LineFields(line));
      }
    }
  }

  ghost predicate NothingEmpty(st: Startup) {
    && (forall n :: n in st.libs ==>
          n != "" && st.libs[n].entry != "" && st.libs[n].file != Some(""))
    && (forall n :: n in st.apps ==>
          var d := st.apps[n]; n != "" && d.entry != "" && d.file != Some("") && d.priority != "" && d.stack != "")
  }

  /** From file to file: for any start-up file whatever in which the target scheduler is found, no name is
      repeated and no field is empty, parsing what run_default_es_startup writes after parsing it gives the
      same variables again if and only if every written line is readable. */
  lemma {:induction false} FileRoundTrip(original: string, target: string, cfDir: string, lower: string -> string)
    requires IsField(target) && IsField(cfDir)
    requires var st := Parse(EMPTY, target, original);
             st.schedName.Some? && NoDuplicates(st.entries) && NothingEmpty(st)
    ensures var st := Parse(EMPTY, target, original);
            Parse(EMPTY, target, Concat(WriteAll(st, cfDir, lower, st.entries))) == st
            <==> AllReadable(st, cfDir, lower)
  {
    var st := Parse(EMPTY, target, original);
    ReadAllParsed(target, UpToEnd(Lines(original)));
    PartsAreFields(st, target);
    RoundTrip(st, target, cfDir, lower);
  }

  lemma {:induction false} PartIsField(s: string)
    requires IsPart(s) && s != ""
    ensures IsField(s)
  {
  }

  lemma {:induction false} PartsAreFields(st: Startup, target: string)
    requires Parsed(st, target) && st.schedName.Some? && NoDuplicates(st.entries) && NothingEmpty(st) && IsField(target)
    ensures WellFormed(st, target)
  {
    forall n | n in st.libs
      ensures var d := st.libs[n]; IsField(n) && d.file.Some? && IsField(d.file.value) && IsField(d.entry)
    {
      PartIsField(n);
      PartIsField(st.libs[n].file.value);
      PartIsField(st.libs[n].entry);
    }
    forall n | n in st.apps
      ensures var d := st.apps[n];
              && IsField(n) && d.file.Some? && IsField(d.file.value) && IsField(d.entry)
              && IsField(d.priority) && IsField(d.stack)
    {
      PartIsField(n);
      PartIsField(st.apps[n].file.value);
      PartIsField(st.apps[n].entry);
      PartIsField(st.apps[n].priority);
      PartIsField(st.apps[n].stack);
    }
  }
}
