/** `build_md.py`: the removal of Ansible's own names from the variable table,
    and the two tables `build_readme` renders for the README template. */
module BuildMd {
  import opened Results
  import opened PyStr
  import opened YamlValue
  import opened Types
  import opened Tables
  import opened Platforms
  import opened Markdown

  /** A name Ansible or Jinja defines itself: `item`, a `lookup(...)` call, or
      one that starts with `ansible_`, `hostvars` or `item:` (each of the
      three patterns `^prefix.*` matches exactly the names with that prefix). */
  predicate IsReserved(key: string)
  {
    || key == "item"
    || Contains(key, "lookup(")
    || StartsWith(key, "ansible_")
    || StartsWith(key, "hostvars")
    || StartsWith(key, "item:")
  }

  /** The table once `clear_ansible_vars` has run: the reserved names are
      gone, every other entry is there unchanged, nothing is added. */
  function ClearedTable(t: VarMap): (r: VarMap)
    ensures forall k :: k in r <==> k in t && !IsReserved(k)
    ensures forall k :: k in r ==> r[k] == t[k]
  {
    map k | k in t && !IsReserved(k) :: t[k]
  }

  /** Clearing twice is clearing once. */
  lemma ClearIdempotent(t: VarMap)
    ensures ClearedTable(ClearedTable(t)) == ClearedTable(t)
  {
    assert ClearedTable(ClearedTable(t)).Keys == ClearedTable(t).Keys;
  }

  /** Clearing keeps every entry filed under its own name. */
  lemma ClearKeepsNames(t: VarMap)
    requires NamedByKey(t)
    ensures NamedByKey(ClearedTable(t))
  {
  }

  /** Every name under one of the three prefixes, and every name with a
      `lookup(` call inside, is reserved, whatever follows. */
  lemma ReservedForms(a: string, x: string)
    ensures IsReserved("ansible_" + x) && IsReserved("hostvars" + x) && IsReserved("item:" + x)
    ensures IsReserved(a + "lookup(" + x)
  {
    assert ("ansible_" + x)[..8] == "ansible_";
    assert ("hostvars" + x)[..8] == "hostvars";
    assert ("item:" + x)[..5] == "item:";
    var s := a + "lookup(" + x;
    assert s[|a|..|a| + 7] == "lookup(";
    assert OccursAt(s, "lookup(", |a|);
  }

  /** Reserved names: `item` itself and names under the three prefixes. */
  lemma ReservedExamples()
    ensures IsReserved("item") && IsReserved("item:key") && IsReserved("ansible_facts")
    ensures IsReserved("hostvars") && IsReserved("hostvars_extra")
  {
    assert "item:key"[..5] == "item:";
    assert "ansible_facts"[..8] == "ansible_";
    assert "hostvars_extra"[..8] == "hostvars";
  }

  /** A lookup call, as the scanner reports `{{ lookup('env','HOME') }}`, is reserved. */
  lemma ReservedLookup()
    ensures IsReserved("lookup('env','HOME')")
  {
    var s := "lookup('env','HOME')";
    assert s[..7] == "lookup(";
    assert OccursAt(s, "lookup(", 0);
  }

  /** The prefixes are prefixes, not words: `items` is kept. */
  lemma KeptExample()
    ensures !IsReserved("items")
  {
    assert "lookup("[6] == '(';
    MissingChar("items", "lookup(", '(');
    assert "items"[..5] != "item:" by { assert "items"[4] != "item:"[4]; }
  }

  /** The first loop of `clear_ansible_vars`: the reserved names of the table. */
  method ReservedKeys(entries: VarMap) returns (invalidKeys: seq<string>)
    ensures forall k :: k in invalidKeys <==> k in entries && IsReserved(k)
  {
    invalidKeys := [];
    var unvisited := entries.Keys;
    while unvisited != {}
      invariant unvisited <= entries.Keys
      invariant forall k :: k in invalidKeys ==> k in entries && IsReserved(k)
      invariant forall k :: k in entries && IsReserved(k) ==> k in invalidKeys || k in unvisited
      decreases unvisited
    {
      var key :| key in unvisited;
      if IsReserved(key) {
        invalidKeys := invalidKeys + [key];
      }
      unvisited := unvisited - {key};
    }
  }

  /** The second loop of `clear_ansible_vars`: `del table[key]` for each
      collected name; every other entry stays as it was. */
  method DeleteKeys(table: VarTable, keys: seq<string>)
    modifies table
    ensures forall k :: k in table.entries <==> k in old(table.entries) && k !in keys
    ensures forall k :: k in table.entries ==> table.entries[k] == old(table.entries)[k]
  {
    var i := 0;
    while i < |keys|
      invariant 0 <= i <= |keys|
      invariant forall k :: k in table.entries <==> k in old(table.entries) && k !in keys[..i]
      invariant forall k :: k in table.entries ==> table.entries[k] == old(table.entries)[k]
    {
      assert keys[..i + 1] == keys[..i] + [keys[i]];
      table.entries := table.entries - {keys[i]};
      i := i + 1;
    }
    assert keys[..i] == keys;
  }

  /** `clear_ansible_vars`: collects the reserved names, then deletes them.
      The source's test `type(table) is None` is never true and is not modelled. */
  method ClearAnsibleVars(table: VarTable)
    modifies table
    ensures table.entries == ClearedTable(old(table.entries))
  {
    var invalidKeys := ReservedKeys(table.entries);
    DeleteKeys(table, invalidKeys);
    assert table.entries.Keys == ClearedTable(old(table.entries)).Keys;
  }

  /** Strictly ascending in Python's string order. */
  predicate Ascending(keys: seq<string>)
  {
    forall i, j :: 0 <= i < j < |keys| ==> LexLess(keys[i], keys[j])
  }

  /** `keys` are the keys of `t` as `sorted(t.items())` orders them. */
  ghost predicate SortedKeysOf(keys: seq<string>, t: VarMap)
  {
    Ascending(keys) && forall k :: k in keys <==> k in t
  }

  /** Two ascending sequences with the same elements are equal: the sorted
      order of a table is unique. */
  lemma {:induction false} AscendingUnique(a: seq<string>, b: seq<string>)
    requires Ascending(a) && Ascending(b)
    requires forall k :: k in a <==> k in b
    ensures a == b
  {
    if a != [] {
      assert a[0] in a;
    }
    if b != [] {
      assert b[0] in b;
    }
    if a != [] && b != [] {
      if a[0] != b[0] {
        var i :| 0 <= i < |a| && a[i] == b[0];
        var j :| 0 <= j < |b| && b[j] == a[0];
        assert i > 0 && j > 0;
        LexAsymmetric(a[0], b[0]);
      }
      forall k
        ensures k in a[1..] <==> k in b[1..]
      {
        NotAtHead(a, k);
        NotAtHead(b, k);
      }
      AscendingUnique(a[1..], b[1..]);
      assert a == [a[0]] + a[1..] && b == [b[0]] + b[1..];
    }
  }

  /** In an ascending sequence the head occurs only at the head. */
  lemma NotAtHead(s: seq<string>, k: string)
    requires Ascending(s) && s != []
    ensures k in s[1..] <==> k in s && k != s[0]
  {
    if k in s[1..] {
      var i :| 0 <= i < |s[1..]| && s[1..][i] == k;
      assert s[i + 1] == k;
      if k == s[0] {
        LexIrreflexive(k);
      }
    }
    if k in s && k != s[0] {
      var i :| 0 <= i < |s| && s[i] == k;
      assert s[1..][i - 1] == k;
    }
  }

  /** The least of a non-empty set of names. */
  method Minimum(s: set<string>) returns (m: string)
    requires s != {}
    ensures m in s && forall k :: k in s && k != m ==> LexLess(m, k)
  {
    m :| m in s;
    var unvisited := s - {m};
    while unvisited != {}
      invariant unvisited <= s && m in s && m !in unvisited
      invariant forall k :: k in s && k !in unvisited && k != m ==> LexLess(m, k)
      decreases unvisited
    {
      var k :| k in unvisited;
      if LexLess(k, m) {
        forall k' | k' in s && k' !in unvisited && k' != m
          ensures LexLess(k, k')
        {
          LexTransitive(k, m, k');
        }
        m := k;
      } else {
        LexTotal(k, m);
      }
      unvisited := unvisited - {k};
    }
  }

  /** `sorted(role_vars.items())`, as the keys in order. */
  method SortKeys(t: VarMap) returns (keys: seq<string>)
    ensures Ascending(keys)
    ensures forall k :: k in keys <==> k in t
  {
    keys := [];
    var unvisited := t.Keys;
    while unvisited != {}
      invariant unvisited <= t.Keys
      invariant forall k :: k in keys <==> k in t && k !in unvisited
      invariant Ascending(keys)
      invariant forall i, k :: 0 <= i < |keys| && k in unvisited ==> LexLess(keys[i], k)
      decreases unvisited
    {
      var m := Minimum(unvisited);
      keys := keys + [m];
      unvisited := unvisited - {m};
    }
  }

  /** A sequence without repeats has as many elements as the set of them. */
  lemma {:induction false} DistinctCount<T>(s: seq<T>, e: set<T>)
    requires forall i, j :: 0 <= i < j < |s| ==> s[i] != s[j]
    requires forall x :: x in s <==> x in e
    ensures |s| == |e|
    decreases |s|
  {
    if s != [] {
      forall x
        ensures x in s[1..] <==> x in e - {s[0]}
      {
        if x in s[1..] {
          var i :| 0 <= i < |s[1..]| && s[1..][i] == x;
          assert s[i + 1] == x;
        }
        if x in s && x != s[0] {
          var i :| 0 <= i < |s| && s[i] == x;
          assert s[1..][i - 1] == x;
        }
      }
      DistinctCount(s[1..], e - {s[0]});
    } else {
      assert forall x :: x !in e;
    }
  }

  /** The headers of the "Role Variables" table. */
  const VariableHeaders: seq<string> := ["Name", "Description", "Required", "Default", "Values", "Examples"]

  /** The headers of the "Supported Platforms" table. */
  const PlatformHeaders: seq<string> := ["OS", "Version"]

  /** One row of the variable table, in the order of its headers. */
  function VariableRow(v: Varible): (row: seq<Cell>)
    ensures |row| == |VariableHeaders|
  {
    [Text(v.name), Text(v.description), Text(v.required), Text(v.default), Text(v.value), Text(v.example)]
  }

  /** The rows of the variable table for `keys`, in that order. */
  function VariableMatrix(t: VarMap, keys: seq<string>): (m: seq<seq<Cell>>)
    requires forall i :: 0 <= i < |keys| ==> keys[i] in t
    ensures |m| == |keys|
  {
    seq(|keys|, i requires 0 <= i < |keys| => VariableRow(t[keys[i]]))
  }

  /** The os cell: the platform's name, which only a `str` can be joined as. */
  function OsCell(os: Yaml): Cell
  {
    if os.YStr? then Text(os.s) else NonText
  }

  /** The platform table can be walked in order and its versions printed. */
  predicate Listable(p: PlatformMap)
  {
    forall i :: 0 <= i < |p.keys| ==> p.keys[i] in p.entries && !p.entries[p.keys[i]].version.YMap?
  }

  /** What `parse_support_platform` builds can be listed. */
  lemma ParsedListable(p: PlatformMap)
    requires p.Valid() && KeyedByVersion(p)
    ensures Listable(p)
  {
  }

  /** `[os.os, str(os.version)]` for the platform under `k`. */
  function PlatformRow(p: PlatformMap, k: Yaml): (row: seq<Cell>)
    requires k in p.entries && !p.entries[k].version.YMap?
    ensures |row| == |PlatformHeaders|
  {
    [OsCell(p.entries[k].os), Text(Str(p.entries[k].version))]
  }

  /** The rows of the platform table, in the table's insertion order. */
  function PlatformMatrix(p: PlatformMap): (m: seq<seq<Cell>>)
    requires Listable(p)
    ensures |m| == |p.keys|
  {
    seq(|p.keys|, i requires 0 <= i < |p.keys| && Listable(p) => PlatformRow(p, p.keys[i]))
  }

  /** Sorted names are distinct, so there is one of them per entry. */
  lemma SortedCount(keys: seq<string>, t: VarMap)
    requires SortedKeysOf(keys, t)
    ensures |keys| == |t|
  {
    forall i, j | 0 <= i < j < |keys|
      ensures keys[i] != keys[j]
    {
      LexIrreflexive(keys[i]);
    }
    DistinctCount(keys, t.Keys);
  }

  /** Row `i` of the variable matrix holds the fields of the entry under
      the `i`-th name, the name first. */
  lemma VariableRows(t: VarMap, keys: seq<string>)
    requires NamedByKey(t) && forall i :: 0 <= i < |keys| ==> keys[i] in t
    ensures var m := VariableMatrix(t, keys);
      forall i :: 0 <= i < |m| ==> |m[i]| == 6 && m[i] == VariableRow(t[keys[i]]) && m[i][0] == Text(keys[i])
  {
  }

  /** Every entry has its row. */
  lemma VariableRowsComplete(t: VarMap, keys: seq<string>)
    requires forall k :: k in keys <==> k in t
    ensures var m := VariableMatrix(t, keys);
      forall k :: k in t ==> exists i :: 0 <= i < |m| && m[i] == VariableRow(t[k])
  {
    var m := VariableMatrix(t, keys);
    forall k | k in t
      ensures exists i :: 0 <= i < |m| && m[i] == VariableRow(t[k])
    {
      var i :| 0 <= i < |keys| && keys[i] == k;
      assert m[i] == VariableRow(t[k]);
    }
  }

  /** The variable matrix of a cleared, sorted table: one six-cell row per
      entry, each the entry's own fields, named by its key, in strictly
      ascending order of names, and no reserved name among them. */
  lemma VariableMatrixShape(t: VarMap, keys: seq<string>)
    requires NamedByKey(t) && SortedKeysOf(keys, ClearedTable(t))
    ensures var c := ClearedTable(t);
      var m := VariableMatrix(c, keys);
      && |m| == |c|
      && (forall i :: 0 <= i < |m| ==> |m[i]| == 6 && m[i] == VariableRow(c[keys[i]]) && m[i][0] == Text(keys[i]))
      && (forall i, j :: 0 <= i < j < |m| ==> LexLess(m[i][0].s, m[j][0].s))
      && (forall i :: 0 <= i < |m| ==> !IsReserved(m[i][0].s))
      && (forall k :: k in c ==> exists i :: 0 <= i < |m| && m[i] == VariableRow(c[k]))
  {
    var c := ClearedTable(t);
    ClearKeepsNames(t);
    SortedCount(keys, c);
    VariableRows(c, keys);
    VariableRowsComplete(c, keys);
  }

  /** The platform matrix of a parsed table: one two-cell row per entry, in
      insertion order, the name first, then the version, which is the key. */
  lemma PlatformMatrixShape(p: PlatformMap)
    requires p.Valid() && KeyedByVersion(p)
    ensures Listable(p)
    ensures var m := PlatformMatrix(p);
      && |m| == |p.entries|
      && forall i :: 0 <= i < |m| ==>
        && |m[i]| == 2
        && m[i][0] == OsCell(p.entries[p.keys[i]].os)
        && m[i][1] == Text(Str(p.keys[i]))
  {
    DistinctCount(p.keys, p.entries.Keys);
  }

  /** The two tables `build_readme` hands to its template, rendered, from the
      cleared variable table `t` listed in the order `keys`. */
  function ReadmeTables(t: VarMap, keys: seq<string>, p: PlatformMap): Result<(string, string)>
    requires forall i :: 0 <= i < |keys| ==> keys[i] in t
    requires Listable(p)
  {
    var variableTable :- RenderTable(PlainHeaders(VariableHeaders), VariableMatrix(t, keys));
    var platformTable :- RenderTable(PlainHeaders(PlatformHeaders), PlatformMatrix(p));
    Ok((variableTable, platformTable))
  }

  /** The sorted keys are empty exactly when the table is. */
  lemma SortedEmpty(keys: seq<string>, t: VarMap)
    requires SortedKeysOf(keys, t)
    ensures keys == [] <==> t == map[]
  {
    if t != map[] {
      var k :| k in t;
    }
    if keys != [] {
      assert keys[0] in keys;
    }
  }

  /** Every cell of the variable matrix is a `str`. */
  lemma VariableCells(t: VarMap, keys: seq<string>)
    requires forall i :: 0 <= i < |keys| ==> keys[i] in t
    ensures var m := VariableMatrix(t, keys);
      forall i, j :: 0 <= i < |m| && 0 <= j < |m[i]| ==> m[i][j].Text?
  {
  }

  /** The platform matrix is empty exactly when the table is, and all its
      cells are `str` exactly when every platform name is. */
  lemma PlatformCells(p: PlatformMap)
    requires p.Valid() && KeyedByVersion(p)
    ensures Listable(p)
    ensures PlatformMatrix(p) == [] <==> p.entries == map[]
    ensures (forall i, j :: 0 <= i < |PlatformMatrix(p)| && 0 <= j < |PlatformMatrix(p)[i]| ==> PlatformMatrix(p)[i][j].Text?)
      <==> forall k :: k in p.entries ==> p.entries[k].os.YStr?
  {
    var pm: seq<seq<Cell>> := PlatformMatrix(p);
    if p.entries != map[] {
      var k :| k in p.entries;
    }
    if p.keys != [] {
      assert p.keys[0] in p.keys;
    }
    if forall k :: k in p.entries ==> p.entries[k].os.YStr? {
      forall i, j | 0 <= i < |pm| && 0 <= j < |pm[i]|
        ensures pm[i][j].Text?
      {
        assert p.keys[i] in p.entries;
      }
    } else {
      var k :| k in p.entries && !p.entries[k].os.YStr?;
      var i :| 0 <= i < |p.keys| && p.keys[i] == k;
      assert pm[i][0] == NonText;
    }
  }

  /** `build_readme` fails when no variable is left after clearing, then when
      there is no platform, then when a platform name is not a `str`, and
      otherwise yields both tables. */
  lemma ReadmeTablesFail(t: VarMap, keys: seq<string>, p: PlatformMap)
    requires SortedKeysOf(keys, t)
    requires p.Valid() && KeyedByVersion(p)
    ensures Listable(p)
    ensures t == map[] ==> ReadmeTables(t, keys, p) == Err(EmptyTable)
    ensures t != map[] && p.entries == map[] ==> ReadmeTables(t, keys, p) == Err(EmptyTable)
    ensures ReadmeTables(t, keys, p).Ok? <==>
      t != map[] && p.entries != map[] && forall k :: k in p.entries ==> p.entries[k].os.YStr?
    ensures ReadmeTables(t, keys, p).Err? && t != map[] && p.entries != map[] ==> ReadmeTables(t, keys, p).error == TypeFailure
  {
    SortedEmpty(keys, t);
    VariableCells(t, keys);
    PlatformCells(p);
    RenderFails(PlainHeaders(VariableHeaders), VariableMatrix(t, keys));
    RenderFails(PlainHeaders(PlatformHeaders), PlatformMatrix(p));
  }

  /** The loop of `build_readme` that builds the variable matrix. */
  method BuildVariableMatrix(orderVars: seq<Varible>) returns (variableMatrix: seq<seq<Cell>>)
    ensures |variableMatrix| == |orderVars|
    ensures forall i :: 0 <= i < |orderVars| ==> variableMatrix[i] == VariableRow(orderVars[i])
  {
    variableMatrix := [];
    var i := 0;
    while i < |orderVars|
      invariant 0 <= i <= |orderVars|
      invariant |variableMatrix| == i
      invariant forall j :: 0 <= j < i ==> variableMatrix[j] == VariableRow(orderVars[j])
    {
      variableMatrix := variableMatrix + [VariableRow(orderVars[i])];
      i := i + 1;
    }
  }

  /** The loop of `build_readme` that builds the platform matrix. */
  method BuildPlatformMatrix(rolePlatform: PlatformMap) returns (osMatrix: seq<seq<Cell>>)
    requires Listable(rolePlatform)
    ensures osMatrix == PlatformMatrix(rolePlatform)
  {
    osMatrix := [];
    var i := 0;
    while i < |rolePlatform.keys|
      invariant 0 <= i <= |rolePlatform.keys|
      invariant osMatrix == PlatformMatrix(rolePlatform)[..i]
    {
      var os := rolePlatform.entries[rolePlatform.keys[i]];
      osMatrix := osMatrix + [[OsCell(os.os), Text(Str(os.version))]];
      i := i + 1;
    }
  }

  /** `build_readme` up to the template: clears the variable table in place,
      then renders the sorted variable table and the platform table. */
  method BuildReadme(roleVars: VarTable, rolePlatform: PlatformTable) returns (tables: Result<(string, string)>)
    requires Listable(rolePlatform.Value())
    modifies roleVars
    ensures roleVars.entries == ClearedTable(old(roleVars.entries))
    ensures exists keys :: (SortedKeysOf(keys, roleVars.entries)
                            && tables == ReadmeTables(roleVars.entries, keys, rolePlatform.Value()))
  {
    ClearAnsibleVars(roleVars);
    var cleared := roleVars.entries;
    var keys := SortKeys(cleared);
    var orderVars := seq(|keys|, i requires 0 <= i < |keys| => cleared[keys[i]]);
    var variableMatrix := BuildVariableMatrix(orderVars);
    assert variableMatrix == VariableMatrix(roleVars.entries, keys);
    var osMatrix := BuildPlatformMatrix(rolePlatform.Value());
    var tableVars := new TableMarkdown(PlainHeaders(VariableHeaders), variableMatrix);
    var tableOs := new TableMarkdown(PlainHeaders(PlatformHeaders), osMatrix);
    var variableTable := tableVars.Render();
    if variableTable.Err? {
      tables := Err(variableTable.error);
    } else {
      var platformTable := tableOs.Render();
      if platformTable.Err? {
        tables := Err(platformTable.error);
      } else {
        tables := Ok((variableTable.value, platformTable.value));
      }
    }
    assert SortedKeysOf(keys, roleVars.entries) && tables == ReadmeTables(roleVars.entries, keys, rolePlatform.Value());
  }
}
