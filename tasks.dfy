/** `parse_tasks`: the line-by-line walk over a task file, its register and
    include declarations, and the one level of included files. */
module Tasks {
  import opened Results
  import opened PyStr
  import opened Types
  import opened Tables
  import opened TemplateVars

  /** The files the walk can open: path to the lines `open(path)` yields,
      each with its line break. A path is `os.path.exists` exactly when it is
      a key; directories are not part of this model. */
  type FileSystem = map<string, seq<string>>

  /** What `re.search(key + " .*", line)` matched, with every `key` removed
      from the match and the result stripped: the declared name, or None
      when there is no such declaration on the line. */
  function Declaration(line: string, key: string): (r: Option<string>)
    requires |key| > 0
    ensures r.Some? <==> Contains(line, key + " ")
  {
    var k := Find(line, key + " ");
    if k == -1 then None
    else Some(Strip(RemoveAll(UpToNewline(line[k..]), key)))
  }

  /** A declared name lies on one line and has no white space at its ends. */
  lemma DeclarationShape(line: string, key: string)
    requires |key| > 0 && Declaration(line, key).Some?
    ensures var n := Declaration(line, key).value;
      && '\n' !in n
      && (n == [] || (!IsSpace(n[0]) && !IsSpace(n[|n| - 1])))
  {
    var k := Find(line, key + " ");
    StripShape(RemoveAll(UpToNewline(line[k..]), key));
  }

  /** The declaration is first found right after `a`. */
  lemma DeclarationFound(a: string, key: string, n: string)
    requires |key| > 0 && key[0] !in a
    ensures Find(a + key + " " + n, key + " ") == |a|
    ensures (a + key + " " + n)[|a|..] == key + " " + n
  {
    var b := key + " " + n;
    assert a + key + " " + n == a + b;
    assert b[..|key + " "|] == key + " ";
    FindAfter(a, b, key + " ");
  }

  /** Removing `key` from the match leaves the space and the name. */
  lemma DeclarationRemoved(key: string, n: string)
    requires |key| > 0 && key[0] != ' '
    requires forall j :: !OccursAt(n, key, j)
    ensures RemoveAll(key + " " + n, key) == " " + n
  {
    RemoveAllHead(" " + n, key);
    assert key + " " + n == key + (" " + n);
    RemoveAllKeeps(' ', n, key);
    RemoveAllNone(n, key);
  }

  /** The name a declaration line gives: after the first `key` and a space
      comes the name, on one line, with no white space at its ends and no
      `key` inside it. */
  lemma DeclarationOf(a: string, key: string, n: string)
    requires |key| > 0 && key[0] !in a && key[0] != ' '
    requires '\n' !in key && '\n' !in n
    requires forall j :: !OccursAt(n, key, j)
    requires n == [] || (!IsSpace(n[0]) && !IsSpace(n[|n| - 1]))
    ensures Declaration(a + key + " " + n, key) == Some(n)
  {
    var b := key + " " + n;
    DeclarationFound(a, key, n);
    assert '\n' !in b;
    assert UpToNewline(b) == b;
    DeclarationRemoved(key, n);
    StripPadded(n);
  }

  /** `key` cannot occur in a text that lacks one of its characters. */
  lemma LacksKey(n: string, key: string, c: char)
    requires c in key && c !in n
    ensures forall j :: !OccursAt(n, key, j)
  {
    MissingChar(n, key, c);
  }

  /** `  register: out` registers `out`. */
  lemma RegisterExample()
    ensures RegisterDecl("  register: out") == Some("out")
  {
    assert "  " + "register:" + " " + "out" == "  register: out";
    assert forall j :: !OccursAt("out", "register:", j) by {
      LacksKey("out", "register:", 'g');
    }
    assert "register:"[0] !in "  " && "out"[2] == 't';
    DeclarationOf("  ", "register:", "out");
  }

  /** `- include: setup.yml` includes `setup.yml`. */
  lemma IncludeExample()
    ensures IncludeDecl("- include: setup.yml") == Some("setup.yml")
  {
    assert "- " + "include:" + " " + "setup.yml" == "- include: setup.yml";
    assert forall j :: !OccursAt("setup.yml", "include:", j) by {
      LacksKey("setup.yml", "include:", 'c');
    }
    assert "include:"[0] !in "- " && "setup.yml"[8] == 'l';
    DeclarationOf("- ", "include:", "setup.yml");
  }

  /** `re.search("register: .*", line)` and the registered name. */
  function RegisterDecl(line: string): Option<string>
  {
    Declaration(line, "register:")
  }

  /** `re.search("include: .*", line)` and the included file's name. */
  function IncludeDecl(line: string): Option<string>
  {
    Declaration(line, "include:")
  }

  /** `"{}/{}".format(os.path.dirname(file_path), name)`. */
  function IncludePath(filePath: string, name: string): string
  {
    Dirname(filePath) + "/" + name
  }

  /** The included path is the directory part of the file's path, a `/`, and
      the name. */
  lemma IncludePathShape(filePath: string, name: string)
    ensures var r := IncludePath(filePath, name);
      var d := |Dirname(filePath)|;
      && |r| == d + 1 + |name|
      && r[..d] == filePath[..d]
      && r[d] == '/' && r[d + 1..] == name
  {
  }

  /** What the walk has built so far: the scanned files, the shared variable
      table and the walk's own registered list. */
  datatype WalkState = WalkState(files: seq<string>, table: VarMap, registered: seq<string>)

  /** One pass of the loop of `parse_tasks` on `line`, where `sub` is the
      include target left by the previous line (`sub_task`). A register
      line records its name and leaves `sub` as it was; otherwise, in a
      recursive walk, `sub` becomes this line's include target. A target
      that exists is walked non-recursively with a fresh registered list;
      a line is scanned only when it declares neither. */
  function Step(fs: FileSystem, path: string, line: string, recursive: bool, sub: Option<string>, st: WalkState): (r: (Option<string>, WalkState))
    requires !recursive ==> sub.None?
    decreases if recursive then 1 else 0, 0, 0
    ensures !recursive ==> r.0.None?
  {
    var reg := RegisterDecl(line);
    var st1 := if reg.Some? then st.(registered := st.registered + [reg.value]) else st;
    var sub1 := if reg.Some? then sub else if recursive then IncludeDecl(line) else None;
    if sub1.Some? then
      var p := IncludePath(path, sub1.value);
      if p in fs then
        var n := Walk(fs, p, fs[p], 0, false, None, WalkState([p], st1.table, []));
        (sub1, WalkState(st1.files + n.files, n.table, st1.registered + n.registered))
      else (sub1, st1)
    else if reg.None? then (sub1, st1.(table := ScanLine(line, st1.table, st1.registered)))
    else (sub1, st1)
  }

  /** The loop of `parse_tasks` from line `i` on; each line loses its
      trailing line breaks first. */
  function Walk(fs: FileSystem, path: string, lines: seq<string>, i: nat, recursive: bool, sub: Option<string>, st: WalkState): WalkState
    requires i <= |lines|
    requires !recursive ==> sub.None?
    decreases if recursive then 1 else 0, |lines| - i, 1
  {
    if i == |lines| then st
    else
      var r := Step(fs, path, RStripChar(lines[i], '\n'), recursive, sub, st);
      Walk(fs, path, lines, i + 1, recursive, r.0, r.1)
  }

  /** `parse_tasks(file_path, table, recursive, registered_vars)` on the
      table `t` and the registered list `registered`: the file must exist. */
  function ParseTasksSpec(fs: FileSystem, filePath: string, t: VarMap, recursive: bool, registered: seq<string>): Result<WalkState>
  {
    if filePath !in fs then Err(FileNotFound)
    else Ok(Walk(fs, filePath, fs[filePath], 0, recursive, None, WalkState([filePath], t, registered)))
  }

  /** `st'` only adds to `st`: entries of the table are kept unchanged, and
      the file list and the registered list are extended at their ends. */
  predicate Extends(st: WalkState, st': WalkState)
  {
    && (forall k :: k in st.table ==> k in st'.table && st'.table[k] == st.table[k])
    && |st.files| <= |st'.files| && st'.files[..|st.files|] == st.files
    && |st.registered| <= |st'.registered| && st'.registered[..|st.registered|] == st.registered
  }

  /** Every listed file exists. */
  predicate FilesIn(fs: FileSystem, files: seq<string>)
  {
    forall j :: 0 <= j < |files| ==> files[j] in fs
  }

  lemma ExtendsTrans(a: WalkState, b: WalkState, c: WalkState)
    requires Extends(a, b) && Extends(b, c)
    ensures Extends(a, c)
  {
    assert c.files[..|a.files|] == c.files[..|b.files|][..|a.files|];
    assert c.registered[..|a.registered|] == c.registered[..|b.registered|][..|a.registered|];
  }

  /** A step only adds, and every file it adds exists. */
  lemma {:induction false} StepExtends(fs: FileSystem, path: string, line: string, recursive: bool, sub: Option<string>, st: WalkState)
    requires !recursive ==> sub.None?
    decreases if recursive then 1 else 0, 0, 0
    ensures Extends(st, Step(fs, path, line, recursive, sub, st).1)
    ensures FilesIn(fs, st.files) ==> FilesIn(fs, Step(fs, path, line, recursive, sub, st).1.files)
  {
    var reg := RegisterDecl(line);
    var st1 := if reg.Some? then st.(registered := st.registered + [reg.value]) else st;
    var sub1 := if reg.Some? then sub else if recursive then IncludeDecl(line) else None;
    assert Extends(st, st1) by {
      assert st1.registered[..|st.registered|] == st.registered;
    }
    if sub1.Some? {
      var p := IncludePath(path, sub1.value);
      if p in fs {
        var n0 := WalkState([p], st1.table, []);
        var n := Walk(fs, p, fs[p], 0, false, None, n0);
        WalkExtends(fs, p, fs[p], 0, false, None, n0);
        var st2 := WalkState(st1.files + n.files, n.table, st1.registered + n.registered);
        assert Extends(st1, st2) by {
          assert st2.files[..|st1.files|] == st1.files;
          assert st2.registered[..|st1.registered|] == st1.registered;
        }
        ExtendsTrans(st, st1, st2);
        if FilesIn(fs, st.files) {
          assert FilesIn(fs, n0.files);
          forall j | 0 <= j < |st2.files|
            ensures st2.files[j] in fs
          {
            if j >= |st1.files| {
              assert st2.files[j] == n.files[j - |st1.files|];
            }
          }
        }
      }
    } else if reg.None? {
      var st2 := st1.(table := ScanLine(line, st1.table, st1.registered));
      ExtendsTrans(st, st1, st2);
    }
  }

  /** A walk only adds, and every file it adds exists. */
  lemma {:induction false} WalkExtends(fs: FileSystem, path: string, lines: seq<string>, i: nat, recursive: bool, sub: Option<string>, st: WalkState)
    requires i <= |lines|
    requires !recursive ==> sub.None?
    decreases if recursive then 1 else 0, |lines| - i, 1
    ensures Extends(st, Walk(fs, path, lines, i, recursive, sub, st))
    ensures FilesIn(fs, st.files) ==> FilesIn(fs, Walk(fs, path, lines, i, recursive, sub, st).files)
  {
    if i < |lines| {
      var r := Step(fs, path, RStripChar(lines[i], '\n'), recursive, sub, st);
      StepExtends(fs, path, RStripChar(lines[i], '\n'), recursive, sub, st);
      WalkExtends(fs, path, lines, i + 1, recursive, r.0, r.1);
      ExtendsTrans(st, r.1, Walk(fs, path, lines, i + 1, recursive, r.0, r.1));
    } else {
      assert st.files[..|st.files|] == st.files;
      assert st.registered[..|st.registered|] == st.registered;
    }
  }

  /** A step keeps every entry of the table filed under its own name. */
  lemma {:induction false} StepNamed(fs: FileSystem, path: string, line: string, recursive: bool, sub: Option<string>, st: WalkState)
    requires !recursive ==> sub.None?
    requires NamedByKey(st.table)
    decreases if recursive then 1 else 0, 0, 0
    ensures NamedByKey(Step(fs, path, line, recursive, sub, st).1.table)
  {
    var reg := RegisterDecl(line);
    var st1 := if reg.Some? then st.(registered := st.registered + [reg.value]) else st;
    var sub1 := if reg.Some? then sub else if recursive then IncludeDecl(line) else None;
    if sub1.Some? {
      var p := IncludePath(path, sub1.value);
      if p in fs {
        WalkNamed(fs, p, fs[p], 0, false, None, WalkState([p], st1.table, []));
      }
    } else if reg.None? {
      ScanKeepsNames(line, st1.table, st1.registered);
    }
  }

  /** So does a walk. */
  lemma {:induction false} WalkNamed(fs: FileSystem, path: string, lines: seq<string>, i: nat, recursive: bool, sub: Option<string>, st: WalkState)
    requires i <= |lines|
    requires !recursive ==> sub.None?
    requires NamedByKey(st.table)
    decreases if recursive then 1 else 0, |lines| - i, 1
    ensures NamedByKey(Walk(fs, path, lines, i, recursive, sub, st).table)
  {
    if i < |lines| {
      var r := Step(fs, path, RStripChar(lines[i], '\n'), recursive, sub, st);
      StepNamed(fs, path, RStripChar(lines[i], '\n'), recursive, sub, st);
      WalkNamed(fs, path, lines, i + 1, recursive, r.0, r.1);
    }
  }

  /** A non-recursive walk lists no file besides those it started with, and a
      name on its registered list is never newly inserted into the table. */
  lemma {:induction false} PlainWalk(fs: FileSystem, path: string, lines: seq<string>, i: nat, st: WalkState)
    requires i <= |lines|
    decreases |lines| - i
    ensures Walk(fs, path, lines, i, false, None, st).files == st.files
    ensures forall k :: k in st.registered && k !in st.table ==> k !in Walk(fs, path, lines, i, false, None, st).table
  {
    if i < |lines| {
      var line := RStripChar(lines[i], '\n');
      var r := Step(fs, path, line, false, None, st);
      assert r.1.files == st.files;
      assert forall k :: k in st.registered ==> k in r.1.registered;
      assert forall k :: k in st.registered && k !in st.table ==> k !in r.1.table;
      PlainWalk(fs, path, lines, i + 1, r.1);
    }
  }

  /** A register line, with no include target pending, is not scanned: its
      name is appended to the registered list and nothing else changes. */
  lemma RegisterLine(fs: FileSystem, path: string, line: string, recursive: bool, st: WalkState)
    requires RegisterDecl(line).Some?
    ensures Step(fs, path, line, recursive, None, st) == (None, st.(registered := st.registered + [RegisterDecl(line).value]))
  {
  }

  /** An include line of a recursive walk is never scanned. A missing target
      changes nothing; an existing one adds itself and nothing more to the
      file list, the names it registers to the registered list, and leaves
      the table as its own walk left it. */
  lemma IncludeLine(fs: FileSystem, path: string, line: string, sub: Option<string>, st: WalkState)
    requires RegisterDecl(line).None? && IncludeDecl(line).Some?
    ensures var p := IncludePath(path, IncludeDecl(line).value);
      var r := Step(fs, path, line, true, sub, st);
      var n := Walk(fs, p, if p in fs then fs[p] else [], 0, false, None, WalkState([p], st.table, []));
      && r.0 == IncludeDecl(line)
      && (p !in fs ==> r.1 == st)
      && (p in fs ==> r.1 == WalkState(st.files + [p], n.table, st.registered + n.registered))
  {
    var p := IncludePath(path, IncludeDecl(line).value);
    if p in fs {
      PlainWalk(fs, p, fs[p], 0, WalkState([p], st.table, []));
    }
  }

  /** Any other line is scanned against the walk's registered list. */
  lemma PlainLine(fs: FileSystem, path: string, line: string, recursive: bool, st: WalkState)
    requires RegisterDecl(line).None? && (!recursive || IncludeDecl(line).None?)
    ensures Step(fs, path, line, recursive, None, st) == (None, st.(table := ScanLine(line, st.table, st.registered)))
  {
  }

  /** A register line while an include target is pending records its name
      and walks that target again. */
  lemma RegisterRepeatsInclude(fs: FileSystem, path: string, line: string, target: string, st: WalkState)
    requires RegisterDecl(line).Some? && IncludePath(path, target) in fs
    ensures var p := IncludePath(path, target);
      var r := Step(fs, path, line, true, Some(target), st);
      r.0 == Some(target) && r.1.files == st.files + [p]
  {
    var p := IncludePath(path, target);
    var st1 := st.(registered := st.registered + [RegisterDecl(line).value]);
    PlainWalk(fs, p, fs[p], 0, WalkState([p], st1.table, []));
  }

  lemma WalkTwoLines(fs: FileSystem, path: string, a: string, b: string, sub: Option<string>, st: WalkState)
    requires '\n' !in a && '\n' !in b
    ensures var r1 := Step(fs, path, a, true, sub, st);
      Walk(fs, path, [a, b], 0, true, sub, st) == Step(fs, path, b, true, r1.0, r1.1).1
  {
    assert RStripChar(a, '\n') == a && RStripChar(b, '\n') == b;
    var lines := [a, b];
    var r1 := Step(fs, path, a, true, sub, st);
    var r2 := Step(fs, path, b, true, r1.0, r1.1);
    WalkUnfold(fs, path, lines, 0, true, sub, st);
    WalkUnfold(fs, path, lines, 1, true, r1.0, r1.1);
    assert Walk(fs, path, lines, 2, true, r2.0, r2.1) == r2.1;
  }

  lemma WalkUnfold(fs: FileSystem, path: string, lines: seq<string>, i: nat, recursive: bool, sub: Option<string>, st: WalkState)
    requires i < |lines|
    requires !recursive ==> sub.None?
    ensures var r := Step(fs, path, RStripChar(lines[i], '\n'), recursive, sub, st);
      Walk(fs, path, lines, i, recursive, sub, st) == Walk(fs, path, lines, i + 1, recursive, r.0, r.1)
  {
  }

  /** `sub_task` outlives its line: a register line right after an include
      line walks the included file a second time, so it is listed twice. */
  lemma IncludeThenRegister(fs: FileSystem, path: string, inc: string, reg: string, t: VarMap, registered: seq<string>)
    requires '\n' !in inc && '\n' !in reg
    requires RegisterDecl(inc).None? && IncludeDecl(inc).Some? && RegisterDecl(reg).Some?
    requires IncludePath(path, IncludeDecl(inc).value) in fs
    ensures var p := IncludePath(path, IncludeDecl(inc).value);
      Walk(fs, path, [inc, reg], 0, true, None, WalkState([path], t, registered)).files == [path, p, p]
  {
    var p := IncludePath(path, IncludeDecl(inc).value);
    var st0 := WalkState([path], t, registered);
    IncludeLine(fs, path, inc, None, st0);
    var r1 := Step(fs, path, inc, true, None, st0);
    RegisterRepeatsInclude(fs, path, reg, IncludeDecl(inc).value, r1.1);
    WalkTwoLines(fs, path, inc, reg, None, st0);
  }

  /** In a recursive walk too, a line of the walked file itself that declares
      nothing is scanned against the walk's registered list, whatever target
      is pending: a registered name not yet in the table stays out of it. */
  lemma RecursiveScanSuppresses(fs: FileSystem, path: string, line: string, sub: Option<string>, st: WalkState, k: string)
    requires RegisterDecl(line).None? && IncludeDecl(line).None?
    requires k in st.registered && k !in st.table
    ensures Step(fs, path, line, true, sub, st).1.table == ScanLine(line, st.table, st.registered)
    ensures k !in Step(fs, path, line, true, sub, st).1.table
  {
    ScanLineEffect(line, st.table, st.registered, k);
  }

  /** An included file is scanned with a fresh registered list: after a
      register line and an include line, the one line `l` of the included
      file is scanned as if nothing were registered. */
  lemma IncludedScanForgets(fs: FileSystem, path: string, reg: string, inc: string, l: string, st: WalkState)
    requires '\n' !in reg && '\n' !in inc && '\n' !in l
    requires RegisterDecl(reg).Some? && RegisterDecl(inc).None? && IncludeDecl(inc).Some? && RegisterDecl(l).None?
    requires IncludePath(path, IncludeDecl(inc).value) in fs && fs[IncludePath(path, IncludeDecl(inc).value)] == [l]
    ensures Walk(fs, path, [reg, inc], 0, true, None, st).table == ScanLine(l, st.table, [])
  {
    var p := IncludePath(path, IncludeDecl(inc).value);
    var st1 := st.(registered := st.registered + [RegisterDecl(reg).value]);
    var n0 := WalkState([p], st1.table, []);
    var n := Walk(fs, p, fs[p], 0, false, None, n0);
    assert Step(fs, path, reg, true, None, st) == (None, st1) by {
      RegisterLine(fs, path, reg, true, st);
    }
    assert Step(fs, path, inc, true, None, st1).1.table == n.table by {
      IncludeLine(fs, path, inc, None, st1);
    }
    assert Walk(fs, path, [reg, inc], 0, true, None, st) == Step(fs, path, inc, true, None, st1).1 by {
      WalkTwoLines(fs, path, reg, inc, None, st);
    }
    assert n.table == ScanLine(l, st.table, []) by {
      OneLineWalk(fs, p, l, n0);
    }
  }

  /** A non-recursive walk of a file of one plain line scans that line. */
  lemma OneLineWalk(fs: FileSystem, path: string, l: string, st: WalkState)
    requires '\n' !in l && RegisterDecl(l).None?
    ensures Walk(fs, path, [l], 0, false, None, st).table == ScanLine(l, st.table, st.registered)
  {
    assert RStripChar(l, '\n') == l;
    WalkUnfold(fs, path, [l], 0, false, None, st);
    PlainLine(fs, path, l, false, st);
  }

  /** So a name the main file has just registered is inserted when the
      included file uses it: the registered list does not reach that scan. */
  lemma RegisteredUsedInInclude(fs: FileSystem, path: string, reg: string, inc: string, l: string, st: WalkState)
    requires '\n' !in reg && '\n' !in inc && '\n' !in l
    requires RegisterDecl(reg).Some? && RegisterDecl(inc).None? && IncludeDecl(inc).Some? && RegisterDecl(l).None?
    requires IncludePath(path, IncludeDecl(inc).value) in fs && fs[IncludePath(path, IncludeDecl(inc).value)] == [l]
    requires RegisterDecl(reg).value !in st.table
    ensures var k := RegisterDecl(reg).value;
      k in Walk(fs, path, [reg, inc], 0, true, None, st).table <==>
        k != "" && exists i :: 0 <= i < |FindAll(l)| && ParseUsedVariable(FindAll(l)[i]) == k
  {
    IncludedScanForgets(fs, path, reg, inc, l, st);
    ScanLineEffect(l, st.table, [], RegisterDecl(reg).value);
  }

  /** The include target pending after `line` in a recursive walk, when
      `sub` was pending before it. */
  function Pending(line: string, sub: Option<string>): (r: Option<string>)
    ensures RegisterDecl(line).Some? ==> r == sub
    ensures RegisterDecl(line).None? ==> r == IncludeDecl(line)
  {
    if RegisterDecl(line).Some? then sub else IncludeDecl(line)
  }

  /** The file a pending target names, when it exists. */
  function TargetFile(fs: FileSystem, path: string, sub: Option<string>): (r: seq<string>)
    ensures FilesIn(fs, r) && |r| <= 1
  {
    if sub.Some? && IncludePath(path, sub.value) in fs then [IncludePath(path, sub.value)] else []
  }

  /** The included files a recursive walk lists from line `i` on, in the
      order it meets them: for each line, the pending target when that file
      exists. */
  function Targets(fs: FileSystem, path: string, lines: seq<string>, i: nat, sub: Option<string>): (r: seq<string>)
    requires i <= |lines|
    decreases |lines| - i
    ensures FilesIn(fs, r)
  {
    if i == |lines| then []
    else
      var sub1 := Pending(RStripChar(lines[i], '\n'), sub);
      TargetFile(fs, path, sub1) + Targets(fs, path, lines, i + 1, sub1)
  }

  /** One line of a recursive walk lists the pending target when it exists,
      and nothing else. */
  lemma StepFiles(fs: FileSystem, path: string, line: string, sub: Option<string>, st: WalkState)
    ensures var sub1 := Pending(line, sub);
      var r := Step(fs, path, line, true, sub, st);
      && r.0 == sub1
      && r.1.files == st.files + TargetFile(fs, path, sub1)
  {
    var sub1 := Pending(line, sub);
    if sub1.Some? && IncludePath(path, sub1.value) in fs {
      var p := IncludePath(path, sub1.value);
      var st1 := if RegisterDecl(line).Some? then st.(registered := st.registered + [RegisterDecl(line).value]) else st;
      PlainWalk(fs, p, fs[p], 0, WalkState([p], st1.table, []));
    } else {
      assert st.files + [] == st.files;
    }
  }

  /** A recursive walk lists, after the files it started with, exactly the
      included files it meets, in order. */
  lemma {:induction false} WalkFiles(fs: FileSystem, path: string, lines: seq<string>, i: nat, sub: Option<string>, st: WalkState)
    requires i <= |lines|
    decreases |lines| - i
    ensures Walk(fs, path, lines, i, true, sub, st).files == st.files + Targets(fs, path, lines, i, sub)
  {
    if i < |lines| {
      var line := RStripChar(lines[i], '\n');
      var r := Step(fs, path, line, true, sub, st);
      StepFiles(fs, path, line, sub, st);
      WalkUnfold(fs, path, lines, i, true, sub, st);
      WalkFiles(fs, path, lines, i + 1, r.0, r.1);
      FilesGlue(Walk(fs, path, lines, i, true, sub, st).files, r.1.files, st.files,
        TargetFile(fs, path, r.0), Targets(fs, path, lines, i + 1, r.0), Targets(fs, path, lines, i, sub));
    } else {
      assert st.files + [] == st.files;
    }
  }

  /** The list arithmetic of one step of `WalkFiles`. */
  lemma FilesGlue(w: seq<string>, f1: seq<string>, f0: seq<string>, here: seq<string>, rest: seq<string>, all: seq<string>)
    requires w == f1 + rest && f1 == f0 + here && all == here + rest
    ensures w == f0 + all
  {
  }

  /** The promise of `parse_tasks`: it fails only on a missing file; it
      returns the file list starting with `file_path`, followed in a
      recursive walk by the existing include targets in the order met, and
      by nothing in a non-recursive one; every listed file exists; the
      table and the registered list only grow; and the table's entries stay
      filed under their own names. */
  lemma ParseTasksShape(fs: FileSystem, filePath: string, t: VarMap, recursive: bool, registered: seq<string>)
    ensures ParseTasksSpec(fs, filePath, t, recursive, registered).Ok? <==> filePath in fs
    ensures ParseTasksSpec(fs, filePath, t, recursive, registered).Ok? ==>
      var w := ParseTasksSpec(fs, filePath, t, recursive, registered).value;
      && |w.files| >= 1 && w.files[0] == filePath
      && FilesIn(fs, w.files)
      && Extends(WalkState([filePath], t, registered), w)
      && (recursive ==> w.files == [filePath] + Targets(fs, filePath, fs[filePath], 0, None))
      && (!recursive ==> w.files == [filePath])
      && (NamedByKey(t) ==> NamedByKey(w.table))
  {
    if filePath in fs {
      var st := WalkState([filePath], t, registered);
      WalkExtends(fs, filePath, fs[filePath], 0, recursive, None, st);
      if NamedByKey(t) {
        WalkNamed(fs, filePath, fs[filePath], 0, recursive, None, st);
      }
      if !recursive {
        PlainWalk(fs, filePath, fs[filePath], 0, st);
      } else {
        WalkFiles(fs, filePath, fs[filePath], 0, None, st);
      }
      var w := Walk(fs, filePath, fs[filePath], 0, recursive, None, st);
      assert w.files[..1] == [filePath];
    }
  }

  /** `parse_tasks`. The registered list is the caller's, extended in place,
      or a fresh one when none is given; the file list is returned as
      `scanned`. */
  method ParseTasks(fs: FileSystem, filePath: string, table: VarTable, recursive: bool, registeredVars: NameList?)
      returns (scanned: Result<seq<string>>, regs: NameList)
    modifies table, registeredVars
    decreases if recursive then 1 else 0
    ensures registeredVars != null ==> regs == registeredVars
    ensures registeredVars == null ==> fresh(regs)
    ensures var start := if registeredVars == null then [] else old(registeredVars.items);
      match ParseTasksSpec(fs, filePath, old(table.entries), recursive, start)
      case Err(e) => scanned == Err(e) && table.entries == old(table.entries) && regs.items == start
      case Ok(w) => scanned == Ok(w.files) && table.entries == w.table && regs.items == w.registered
  {
    if registeredVars == null {
      regs := new NameList();
    } else {
      regs := registeredVars;
    }
    ghost var start := regs.items;
    if filePath !in fs {
      return Err(FileNotFound), regs;
    }
    var files := [filePath];
    var subTask: Option<string> := None;
    var index := 0;
    var lines := fs[filePath];
    while index < |lines|
      invariant 0 <= index <= |lines|
      invariant !recursive ==> subTask.None?
      invariant registeredVars != null ==> regs == registeredVars
      invariant registeredVars == null ==> fresh(regs)
      invariant Walk(fs, filePath, lines, 0, recursive, None, WalkState([filePath], old(table.entries), start))
        == Walk(fs, filePath, lines, index, recursive, subTask, WalkState(files, table.entries, regs.items))
    {
      var line := RStripChar(lines[index], '\n');
      ghost var before := WalkState(files, table.entries, regs.items);
      ghost var step := Step(fs, filePath, line, recursive, subTask, before);
      var varsCheck := true;
      var register := RegisterDecl(line);
      if register.Some? {
        regs.items := regs.items + [register.value];
        varsCheck := false;
      } else if recursive {
        subTask := IncludeDecl(line);
      }
      if subTask.Some? {
        var subTaskPath := IncludePath(filePath, subTask.value);
        if subTaskPath in fs {
          var scFiles, regVars := ParseTasks(fs, subTaskPath, table, false, null);
          files := files + scFiles.value;
          regs.items := regs.items + regVars.items;
        } else {
          varsCheck := false;
        }
      } else if varsCheck {
        ScanVariables(line, table, regs.items);
      }
      assert (subTask, WalkState(files, table.entries, regs.items)) == step;
      index := index + 1;
    }
    return Ok(files), regs;
  }
}
