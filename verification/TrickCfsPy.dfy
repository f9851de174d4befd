/** The variables of the trick_cfs module and the functions that fill and print them, line by line. The
    text of the file read, the directory of the file written and `str.lower` are parameters. */
module TrickCfsPy {
  import opened Text
  import opened EsStartup

  lemma {:induction false} UpToEndIs(lines: seq<string>, n: nat)
    requires n <= |lines| && forall i :: 0 <= i < n ==> !IsEnd(lines[i])
    requires n < |lines| ==> IsEnd(lines[n])
    ensures UpToEnd(lines) == lines[..n]
  {
    if n > 0 {
      UpToEndIs(lines[1..], n - 1);
      assert lines[..n] == [lines[0]] + lines[1..][..n - 1];
    }
  }

  lemma {:induction false} ReadUpTo(st: Startup, target: string, lines: seq<string>, n: nat)
    requires n < |lines|
    ensures ReadAll(st, target, lines[..n + 1]) == ReadLine(ReadAll(st, target, lines[..n]), target, lines[n])
  {
    assert lines[..n + 1][..n] == lines[..n];
  }

  lemma {:induction false} LongestIs(names: set<string>, floor: nat, m: nat)
    requires IsLongest(names, floor, m)
    ensures Longest(names, floor) == m
  {
  }

  /** A running maximum over the lengths of some names. */
  method RunningMax(names: set<string>, start: nat) returns (m: nat)
    ensures m == Longest(names, start)
  {
    m := start;
    var left := names;
    while left != {}
      invariant left <= names && IsLongest(names - left, start, m)
      decreases |left|
    {
      var s :| s in left;
      ghost var seen := names - left;
      left := left - {s};
      assert names - left == seen + {s};
      if |s| > m {
        m := |s|;
      }
    }
    assert names - left == names;
    LongestIs(names, start, m);
  }

  class TrickCfsModule {
    var libs_map: map<string, LibDef>
    var apps_map: map<string, AppDef>
    var es_entries: seq<string>
    var origSchAppName: Option<string>
    var TargetSchAppName: string

    function View(): Startup
      reads this
    {
      Startup(libs_map, apps_map, es_entries, origSchAppName)
    }

    /** `target` is what set_target_sch_app_name has set. */
    constructor (target: string := "SCH_LAB_APP")
      ensures View() == EMPTY && TargetSchAppName == target
    {
      libs_map, apps_map, es_entries, origSchAppName := map[], map[], [], None;
      TargetSchAppName := target;
    }

    /** From now on this library is what run_with_apps finds under its name, and whatever else it finds
        stays. */
    method AddLibDefinition(name: string, entry: string)
      modifies this`libs_map
      ensures View() == AddLib(old(View()), name, entry)
      ensures forall cfDir, lower, n :: ItemOf(View(), cfDir, lower, n)
                == if n == name then Some(Item("CFE_LIB", FileOf(None, n, cfDir, lower), entry, n, "0", "0"))
                   else ItemOf(old(View()), cfDir, lower, n)
    {
      libs_map := libs_map[name := LibDef(entry, None)];
    }

    /** The same for an application, unless a library has that name. */
    method AddAppDefinition(name: string, entry: string, prior: string, stackSize: string, objName: Option<string>)
      modifies this`apps_map
      ensures View() == AddApp(old(View()), name, AppDef(entry, prior, stackSize, objName))
      ensures forall cfDir, lower, n :: ItemOf(View(), cfDir, lower, n)
                == if n == name && n !in libs_map
                   then Some(Item("CFE_APP", FileOf(objName, n, cfDir, lower), entry, n, prior, stackSize))
                   else ItemOf(old(View()), cfDir, lower, n)
    {
      apps_map := apps_map[name := AppDef(entry, prior, stackSize, objName)];
    }

    method ParseCfeEsStartup(text: string)
      modifies this`libs_map, this`apps_map, this`es_entries, this`origSchAppName
      ensures View() == Parse(old(View()), TargetSchAppName, text)
    {
      var inFile := Lines(text);
      ghost var start := View();
      var i := 0;
      while i < |inFile| && !IsEnd(inFile[i])
        invariant i <= |inFile|
        invariant forall j :: 0 <= j < i ==> !IsEnd(inFile[j])
        invariant View() == ReadAll(start, TargetSchAppName, inFile[..i])
      {
        ReadUpTo(start, TargetSchAppName, inFile, i);
        ParseText(inFile[i]);
        i := i + 1;
      }
      UpToEndIs(inFile, i);
    }

    method ParseText(origLine: string)
      modifies this`libs_map, this`apps_map, this`es_entries, this`origSchAppName
      ensures View() == ReadLine(old(View()), TargetSchAppName, origLine)
    {
      var words := Words(Strip(origLine));
      var line := Join(words);
      if words != [] {
        ParseLine(Fields(Clean(line)));
      }
    }

    method ParseLine(lineFields: seq<string>)
      modifies this`libs_map, this`apps_map, this`es_entries, this`origSchAppName
      ensures View() == ReadFields(old(View()), TargetSchAppName, lineFields)
    {
      if |lineFields| == 8 {
        if lineFields[0] == "CFE_APP" {
          if lineFields[3] == TargetSchAppName {
            origSchAppName := Some(lineFields[3]);
          } else {
            var app := AppDef(lineFields[2], lineFields[4], lineFields[5], Some(lineFields[1]));
            apps_map := apps_map[lineFields[3] := app];
            es_entries := es_entries + [lineFields[3]];
          }
        } else if lineFields[0] == "CFE_LIB" {
          libs_map := libs_map[lineFields[3] := LibDef(lineFields[2], Some(lineFields[1]))];
          es_entries := es_entries + [lineFields[3]];
        }
      }
    }

    method ColumnWidths(cfDir: string) returns (w: Columns)
      ensures w == ColumnsOf(View(), cfDir)
    {
      var maxAppNameSize := RunningMax(libs_map.Keys + apps_map.Keys, |"SCH_trk"|);
      maxAppNameSize := maxAppNameSize + 1;
      var maxAppFileSize := maxAppNameSize + |cfDir| + |".so,"|;
      var funcs := (set x | x in libs_map :: libs_map[x].entry) + (set x | x in apps_map :: apps_map[x].entry);
      var maxAppFuncNameSize := RunningMax(funcs, |SCH_FUNC|);
      w := Columns(maxAppFileSize, maxAppFuncNameSize + 2, maxAppNameSize);
    }

    method RunWithApps(appList: seq<string>, cfDir: string, lower: string -> string) returns (outFile: seq<string>)
      ensures outFile == WriteAll(View(), cfDir, lower, appList)
    {
      var w := ColumnWidths(cfDir);
      var first := [Written(w, SchedulerItem(View(), cfDir))];
      var rest: seq<string> := [];
      for i := 0 to |appList|
        invariant rest == WriteEntries(View(), cfDir, lower, w, appList[..i])
      {
        assert appList[..i + 1][..i] == appList[..i];
        var item := ItemOf(View(), cfDir, lower, appList[i]);
        if item.Some? {
          rest := rest + [Written(w, item.value)];
        }
      }
      assert appList[..|appList|] == appList;
      outFile := first + rest;
    }

    method RunDefaultEsStartup(cfDir: string, lower: string -> string) returns (outFile: seq<string>)
      ensures outFile == WriteAll(View(), cfDir, lower, es_entries)
    {
      outFile := RunWithApps(es_entries, cfDir, lower);
    }
  }
}
