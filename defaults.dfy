/** Flattening of the default-value documents: `parse_dict_variable` and
    what `parse_defaults` does with the value `yaml.safe_load` returned. */
module Defaults {
  import opened Results
  import opened PyStr
  import opened YamlValue
  import opened Types
  import opened Tables

  /** `"{}:{}".format(var_name, sub_key)`: the path of a nested key. */
  function JoinKey(prefix: string, key: string): string
  {
    prefix + ":" + key
  }

  /** The entry a default-value document gives a variable: not required. */
  function DefaultEntry(name: string, default: string): Varible
  {
    Varible(name, "No", default)
  }

  /** `parse_dict_variable(prefix, m, table)` from the `i`-th item of `m` on:
      the item's path must be new, a nested dict is walked under that path,
      and anything else is stored as the default of that path. */
  function FlattenDict(prefix: string, m: Yaml, i: nat, t: VarMap): Result<VarMap>
    requires m.YMap? && i <= |m.entries|
    decreases m, |m.entries| - i
  {
    if i == |m.entries| then Ok(t)
    else
      var full := JoinKey(prefix, m.entries[i].0);
      if full in t then Err(DuplicateVariable)
      else if m.entries[i].1.YMap? then
        match FlattenDict(full, m.entries[i].1, 0, t)
        case Err(e) => Err(e)
        case Ok(t') => FlattenDict(prefix, m, i + 1, t')
      else FlattenDict(prefix, m, i + 1, t[full := DefaultEntry(full, Str(m.entries[i].1))])
  }

  /** Every path the walk visits, with the value found there, in the order
      of the walk: a dict's path comes before the paths inside it. */
  function Paths(prefix: string, m: Yaml, i: nat): seq<(string, Yaml)>
    requires m.YMap? && i <= |m.entries|
    decreases m, |m.entries| - i
  {
    if i == |m.entries| then []
    else
      var full := JoinKey(prefix, m.entries[i].0);
      var v := m.entries[i].1;
      [(full, v)] + (if v.YMap? then Paths(full, v, 0) else []) + Paths(prefix, m, i + 1)
  }

  /** The reference flattening, over the flat list of visited paths: stop at
      the first path already in the table, store every non-dict value. */
  function FlatWalk(ps: seq<(string, Yaml)>, t: VarMap): Result<VarMap>
    decreases |ps|
  {
    if ps == [] then Ok(t)
    else if ps[0].0 in t then Err(DuplicateVariable)
    else FlatWalk(ps[1..], if ps[0].1.YMap? then t else t[ps[0].0 := DefaultEntry(ps[0].0, Str(ps[0].1))])
  }

  function Then(r: Result<VarMap>, ps: seq<(string, Yaml)>): Result<VarMap>
  {
    match r
    case Ok(t) => FlatWalk(ps, t)
    case Err(e) => Err(e)
  }

  lemma {:induction false} FlatWalkAppend(a: seq<(string, Yaml)>, b: seq<(string, Yaml)>, t: VarMap)
    decreases |a|
    ensures FlatWalk(a + b, t) == Then(FlatWalk(a, t), b)
  {
    if a != [] {
      assert (a + b)[0] == a[0] && (a + b)[1..] == a[1..] + b;
      if a[0].0 !in t {
        FlatWalkAppend(a[1..], b, if a[0].1.YMap? then t else t[a[0].0 := DefaultEntry(a[0].0, Str(a[0].1))]);
      }
    } else {
      assert a + b == b;
    }
  }

  /** The nested walk of `parse_dict_variable` is the flat walk over its paths. */
  lemma {:induction false} FlattenIsFlatWalk(prefix: string, m: Yaml, i: nat, t: VarMap)
    requires m.YMap? && i <= |m.entries|
    decreases m, |m.entries| - i
    ensures FlattenDict(prefix, m, i, t) == FlatWalk(Paths(prefix, m, i), t)
  {
    if i < |m.entries| {
      var full := JoinKey(prefix, m.entries[i].0);
      var v := m.entries[i].1;
      var sub := if v.YMap? then Paths(full, v, 0) else [];
      var rest := Paths(prefix, m, i + 1);
      assert Paths(prefix, m, i) == ([(full, v)] + sub) + rest;
      FlatWalkAppend([(full, v)] + sub, rest, t);
      assert ([(full, v)] + sub)[1..] == sub;
      if full !in t {
        if v.YMap? {
          FlattenIsFlatWalk(full, v, 0, t);
          match FlattenDict(full, v, 0, t)
          case Err(e) =>
          case Ok(t') =>
            FlattenIsFlatWalk(prefix, m, i + 1, t');
        } else {
          FlattenIsFlatWalk(prefix, m, i + 1, t[full := DefaultEntry(full, Str(v))]);
        }
      }
    }
  }

  /** The flat walk never changes or removes an entry it found. */
  lemma {:induction false} FlatWalkKeeps(ps: seq<(string, Yaml)>, t: VarMap)
    decreases |ps|
    ensures FlatWalk(ps, t).Ok? ==> forall k :: k in t ==> k in FlatWalk(ps, t).value && FlatWalk(ps, t).value[k] == t[k]
  {
    if ps != [] && ps[0].0 !in t {
      FlatWalkKeeps(ps[1..], if ps[0].1.YMap? then t else t[ps[0].0 := DefaultEntry(ps[0].0, Str(ps[0].1))]);
    }
  }

  /** Every entry the flat walk adds is a non-dict value at one of the paths,
      stored as that path's default and not required: the path of a dict
      never becomes an entry. */
  lemma {:induction false} FlatWalkAddsLeaves(ps: seq<(string, Yaml)>, t: VarMap, k: string)
    decreases |ps|
    requires FlatWalk(ps, t).Ok? && k in FlatWalk(ps, t).value && k !in t
    ensures exists j :: (0 <= j < |ps| && ps[j].0 == k && !ps[j].1.YMap?
                         && FlatWalk(ps, t).value[k] == DefaultEntry(k, Str(ps[j].1)))
  {
    var t1 := if ps[0].1.YMap? then t else t[ps[0].0 := DefaultEntry(ps[0].0, Str(ps[0].1))];
    if k in t1 {
      FlatWalkKeeps(ps[1..], t1);
      assert ps[0].0 == k && !ps[0].1.YMap?;
    } else {
      FlatWalkAddsLeaves(ps[1..], t1, k);
      var j :| 0 <= j < |ps[1..]| && ps[1..][j].0 == k && !ps[1..][j].1.YMap?
        && FlatWalk(ps[1..], t1).value[k] == DefaultEntry(k, Str(ps[1..][j].1));
      assert ps[j + 1] == ps[1..][j];
    }
  }

  /** Conversely every non-dict value at a path gets an entry when the walk succeeds. */
  lemma {:induction false} FlatWalkStoresLeaves(ps: seq<(string, Yaml)>, t: VarMap, j: nat)
    decreases |ps|
    requires j < |ps| && !ps[j].1.YMap? && FlatWalk(ps, t).Ok?
    ensures ps[j].0 in FlatWalk(ps, t).value
  {
    var t1 := if ps[0].1.YMap? then t else t[ps[0].0 := DefaultEntry(ps[0].0, Str(ps[0].1))];
    if j == 0 {
      FlatWalkKeeps(ps[1..], t1);
    } else {
      assert ps[1..][j - 1] == ps[j];
      FlatWalkStoresLeaves(ps[1..], t1, j - 1);
    }
  }

  /** The path at `j` clashes: it is in the table already, or an earlier
      non-dict value was stored under the same path. */
  predicate Clash(ps: seq<(string, Yaml)>, t: VarMap, j: nat)
    requires j < |ps|
  {
    ps[j].0 in t || exists l :: 0 <= l < j && ps[l].0 == ps[j].0 && !ps[l].1.YMap?
  }

  /** The flat walk fails exactly when some path clashes, and then always with
      the duplicate-declaration error: defaults never overwrite. */
  lemma {:induction false} FlatWalkFails(ps: seq<(string, Yaml)>, t: VarMap)
    decreases |ps|
    ensures FlatWalk(ps, t).Err? <==> exists j :: 0 <= j < |ps| && Clash(ps, t, j)
    ensures FlatWalk(ps, t).Err? ==> FlatWalk(ps, t).error == DuplicateVariable
  {
    if ps != [] && ps[0].0 !in t {
      var t1 := if ps[0].1.YMap? then t else t[ps[0].0 := DefaultEntry(ps[0].0, Str(ps[0].1))];
      FlatWalkFails(ps[1..], t1);
      forall j | 1 <= j < |ps|
        ensures Clash(ps, t, j) <==> Clash(ps[1..], t1, j - 1)
      {
        assert ps[1..][j - 1] == ps[j];
        if Clash(ps, t, j) && ps[j].0 !in t {
          var l :| 0 <= l < j && ps[l].0 == ps[j].0 && !ps[l].1.YMap?;
          if l > 0 {
            assert ps[1..][l - 1] == ps[l];
          }
        }
        if Clash(ps[1..], t1, j - 1) && ps[j].0 !in t1 {
          var l :| 0 <= l < j - 1 && ps[1..][l].0 == ps[1..][j - 1].0 && !ps[1..][l].1.YMap?;
          assert ps[l + 1] == ps[1..][l];
        }
      }
      if FlatWalk(ps, t).Err? {
        var j :| 0 <= j < |ps[1..]| && Clash(ps[1..], t1, j);
        assert Clash(ps, t, j + 1);
      }
      assert !Clash(ps, t, 0);
    } else if ps != [] {
      assert Clash(ps, t, 0);
    }
  }

  /** `parse_dict_variable` in place: walks `varValues`, the items of a dict,
      adding one entry per non-dict value under its joined path. */
  method ParseDictVariable(varName: string, varValues: Yaml, table: VarTable) returns (outcome: Outcome)
    requires varValues.YMap?
    modifies table
    decreases varValues
    ensures Agrees(FlattenDict(varName, varValues, 0, old(table.entries)), outcome, table.entries)
  {
    var i := 0;
    while i < |varValues.entries|
      invariant 0 <= i <= |varValues.entries|
      invariant FlattenDict(varName, varValues, 0, old(table.entries)) == FlattenDict(varName, varValues, i, table.entries)
    {
      var subKey, subValue := varValues.entries[i].0, varValues.entries[i].1;
      var fullKey := JoinKey(varName, subKey);
      if fullKey in table.entries {
        return Fail(DuplicateVariable);
      }
      if subValue.YMap? {
        outcome := ParseDictVariable(fullKey, subValue, table);
        if outcome.Fail? {
          return;
        }
      } else {
        table.entries := table.entries[fullKey := DefaultEntry(fullKey, Str(subValue))];
      }
      i := i + 1;
    }
    return Pass;
  }

  /** The default recorded for a templated expression such as
      `{{ lookup('env','HOME') | default('/root', true) }}`: from the text
      after `default(` (and the two last characters dropped) up to the first
      comma, both positions counted in the unstripped slice, with Python's
      slice rules (a missing comma, -1, means "all but the last character"). */
  function LookupDefault(s: string): string
  {
    var u := Slice(s, Find(s, "default"), -2);
    Slice(Strip(u), |"default"| + 1, Find(u, ","))
  }

  /** What a top-level non-dict value is recorded as: verbatim, unless its
      text mentions both "default" and "lookup"; in that case the value must
      be a `str` (anything else has no `.find`). */
  function ScalarDefault(v: Yaml): Result<string>
    requires !v.YMap?
  {
    if Contains(Str(v), "default") && Contains(Str(v), "lookup") then
      if v.YStr? then Ok(LookupDefault(v.s)) else Err(AttributeFailure)
    else Ok(Str(v))
  }

  /** The loop of `parse_defaults` over the top-level items of `m` from the `i`-th on. */
  function TopLevel(m: Yaml, i: nat, t: VarMap): Result<VarMap>
    requires m.YMap? && i <= |m.entries|
    decreases |m.entries| - i
  {
    if i == |m.entries| then Ok(t)
    else
      var key := m.entries[i].0;
      var value := m.entries[i].1;
      if key in t then Err(DuplicateVariable)
      else if value.YMap? then
        match FlattenDict(key, value, 0, t)
        case Err(e) => Err(e)
        case Ok(t') => TopLevel(m, i + 1, t')
      else
        match ScalarDefault(value)
        case Err(e) => Err(e)
        case Ok(d) => TopLevel(m, i + 1, t[key := DefaultEntry(key, d)])
  }

  /** `parse_defaults` once the document is loaded: `doc or {}` must be a dict. */
  function ParseDefaultsSpec(doc: Yaml, t: VarMap): Result<VarMap>
  {
    if !Truthy(doc) then Ok(t)
    else if !doc.YMap? then Err(AttributeFailure)
    else TopLevel(doc, 0, t)
  }

  /** The nested walk of one dict keeps what the table held. */
  lemma FlattenKeeps(prefix: string, m: Yaml, t: VarMap)
    requires m.YMap?
    ensures FlattenDict(prefix, m, 0, t).Ok? ==> forall k :: k in t ==> k in FlattenDict(prefix, m, 0, t).value && FlattenDict(prefix, m, 0, t).value[k] == t[k]
  {
    FlattenIsFlatWalk(prefix, m, 0, t);
    FlatWalkKeeps(Paths(prefix, m, 0), t);
  }

  /** `parse_defaults` never changes or removes an entry that was there. */
  lemma {:induction false} TopLevelKeeps(m: Yaml, i: nat, t: VarMap)
    requires m.YMap? && i <= |m.entries|
    decreases |m.entries| - i
    ensures TopLevel(m, i, t).Ok? ==> forall k :: k in t ==> k in TopLevel(m, i, t).value && TopLevel(m, i, t).value[k] == t[k]
  {
    if i < |m.entries| && m.entries[i].0 !in t {
      var key, value := m.entries[i].0, m.entries[i].1;
      if value.YMap? {
        FlattenKeeps(key, value, t);
        match FlattenDict(key, value, 0, t)
        case Err(_) =>
        case Ok(t') => TopLevelKeeps(m, i + 1, t');
      } else {
        match ScalarDefault(value)
        case Err(_) =>
        case Ok(d) => TopLevelKeeps(m, i + 1, t[key := DefaultEntry(key, d)]);
      }
    }
  }

  /** A top-level key, or a path inside a top-level dict, that the table
      already holds makes `parse_defaults` fail: it never overwrites. */
  lemma {:induction false} TopLevelRejectsKnown(m: Yaml, i: nat, t: VarMap, j: nat)
    requires m.YMap? && i <= j < |m.entries|
    requires m.entries[j].0 in t
      || (m.entries[j].1.YMap? && exists n :: 0 <= n < |Paths(m.entries[j].0, m.entries[j].1, 0)| && Paths(m.entries[j].0, m.entries[j].1, 0)[n].0 in t)
    decreases |m.entries| - i
    ensures TopLevel(m, i, t).Err?
  {
    var key, value := m.entries[i].0, m.entries[i].1;
    if key !in t {
      if value.YMap? {
        FlattenIsFlatWalk(key, value, 0, t);
        FlattenKeeps(key, value, t);
        if i == j {
          var n :| 0 <= n < |Paths(key, value, 0)| && Paths(key, value, 0)[n].0 in t;
          FlatWalkFails(Paths(key, value, 0), t);
          assert Clash(Paths(key, value, 0), t, n);
        } else {
          match FlattenDict(key, value, 0, t)
          case Err(_) =>
          case Ok(t') => TopLevelRejectsKnown(m, i + 1, t', j);
        }
      } else {
        match ScalarDefault(value)
        case Err(_) =>
        case Ok(d) => TopLevelRejectsKnown(m, i + 1, t[key := DefaultEntry(key, d)], j);
      }
    }
  }

  /** The scalar at the current position is recorded and stays in the table. */
  lemma TopLevelScalarHere(m: Yaml, i: nat, t: VarMap)
    requires m.YMap? && i < |m.entries| && !m.entries[i].1.YMap?
    requires TopLevel(m, i, t).Ok?
    ensures ScalarDefault(m.entries[i].1).Ok?
    ensures m.entries[i].0 in TopLevel(m, i, t).value
    ensures TopLevel(m, i, t).value[m.entries[i].0] == DefaultEntry(m.entries[i].0, ScalarDefault(m.entries[i].1).value)
  {
    var key, value := m.entries[i].0, m.entries[i].1;
    var t' := t[key := DefaultEntry(key, ScalarDefault(value).value)];
    assert TopLevel(m, i, t) == TopLevel(m, i + 1, t');
    TopLevelKeeps(m, i + 1, t');
  }

  /** On success every top-level scalar is recorded under its own key, not
      required, with its `ScalarDefault`: verbatim or the lookup default. */
  lemma {:induction false} TopLevelScalars(m: Yaml, i: nat, t: VarMap, j: nat)
    requires m.YMap? && i <= j < |m.entries| && !m.entries[j].1.YMap?
    requires TopLevel(m, i, t).Ok?
    decreases |m.entries| - i
    ensures ScalarDefault(m.entries[j].1).Ok?
    ensures m.entries[j].0 in TopLevel(m, i, t).value
    ensures TopLevel(m, i, t).value[m.entries[j].0] == DefaultEntry(m.entries[j].0, ScalarDefault(m.entries[j].1).value)
  {
    if i == j {
      TopLevelScalarHere(m, i, t);
    } else {
      var key, value := m.entries[i].0, m.entries[i].1;
      var t' := if value.YMap? then FlattenDict(key, value, 0, t).value
        else t[key := DefaultEntry(key, ScalarDefault(value).value)];
      assert TopLevel(m, i, t) == TopLevel(m, i + 1, t');
      TopLevelScalars(m, i + 1, t', j);
    }
  }

  /** The leaves of the dict at the current position stay in the table. */
  lemma TopLevelLeavesHere(m: Yaml, i: nat, t: VarMap, n: nat)
    requires m.YMap? && i < |m.entries| && m.entries[i].1.YMap?
    requires n < |Paths(m.entries[i].0, m.entries[i].1, 0)| && !Paths(m.entries[i].0, m.entries[i].1, 0)[n].1.YMap?
    requires TopLevel(m, i, t).Ok?
    ensures Paths(m.entries[i].0, m.entries[i].1, 0)[n].0 in TopLevel(m, i, t).value
  {
    var key, value := m.entries[i].0, m.entries[i].1;
    var ps := Paths(key, value, 0);
    FlattenIsFlatWalk(key, value, 0, t);
    var t' := FlattenDict(key, value, 0, t).value;
    assert TopLevel(m, i, t) == TopLevel(m, i + 1, t');
    FlatWalkStoresLeaves(ps, t, n);
    TopLevelKeeps(m, i + 1, t');
  }

  /** On success every non-dict value inside a top-level dict is recorded
      under its joined path. */
  lemma {:induction false} TopLevelLeaves(m: Yaml, i: nat, t: VarMap, j: nat, n: nat)
    requires m.YMap? && i <= j < |m.entries| && m.entries[j].1.YMap?
    requires n < |Paths(m.entries[j].0, m.entries[j].1, 0)| && !Paths(m.entries[j].0, m.entries[j].1, 0)[n].1.YMap?
    requires TopLevel(m, i, t).Ok?
    decreases |m.entries| - i
    ensures Paths(m.entries[j].0, m.entries[j].1, 0)[n].0 in TopLevel(m, i, t).value
  {
    if i == j {
      TopLevelLeavesHere(m, i, t, n);
    } else {
      var key, value := m.entries[i].0, m.entries[i].1;
      var t' := if value.YMap? then FlattenDict(key, value, 0, t).value
        else t[key := DefaultEntry(key, ScalarDefault(value).value)];
      assert TopLevel(m, i, t) == TopLevel(m, i + 1, t');
      TopLevelLeaves(m, i + 1, t', j, n);
    }
  }

  /** `e` is the entry that item `j` of `m` gives the name `k`: the item's
      own key when its value is not a dict, with its `ScalarDefault`, or the
      joined path of a non-dict value inside it when it is, with that value. */
  ghost predicate EntryFrom(m: Yaml, j: nat, k: string, e: Varible)
    requires m.YMap? && j < |m.entries|
  {
    var key, value := m.entries[j].0, m.entries[j].1;
    if value.YMap? then
      exists n :: 0 <= n < |Paths(key, value, 0)| && Paths(key, value, 0)[n].0 == k
        && !Paths(key, value, 0)[n].1.YMap? && e == DefaultEntry(k, Str(Paths(key, value, 0)[n].1))
    else key == k && ScalarDefault(value).Ok? && e == DefaultEntry(k, ScalarDefault(value).value)
  }

  /** `parse_defaults` adds nothing but top-level scalar keys and the joined
      paths of the non-dict values inside top-level dicts, each with the
      entry that item gives it. */
  lemma {:induction false} TopLevelAdds(m: Yaml, i: nat, t: VarMap, k: string)
    requires m.YMap? && i <= |m.entries|
    requires TopLevel(m, i, t).Ok? && k in TopLevel(m, i, t).value && k !in t
    decreases |m.entries| - i
    ensures exists j :: i <= j < |m.entries| && EntryFrom(m, j, k, TopLevel(m, i, t).value[k])
  {
    var key, value := m.entries[i].0, m.entries[i].1;
    var r := TopLevel(m, i, t).value;
    if value.YMap? {
      var t' := FlattenDict(key, value, 0, t).value;
      assert TopLevel(m, i, t) == TopLevel(m, i + 1, t');
      if k in t' {
        FlattenIsFlatWalk(key, value, 0, t);
        FlatWalkAddsLeaves(Paths(key, value, 0), t, k);
        TopLevelKeeps(m, i + 1, t');
        assert EntryFrom(m, i, k, r[k]);
      } else {
        TopLevelAdds(m, i + 1, t', k);
      }
    } else {
      var t' := t[key := DefaultEntry(key, ScalarDefault(value).value)];
      assert TopLevel(m, i, t) == TopLevel(m, i + 1, t');
      if k == key {
        TopLevelKeeps(m, i + 1, t');
        assert EntryFrom(m, i, k, r[k]);
      } else {
        TopLevelAdds(m, i + 1, t', k);
      }
    }
  }

  /** The flat walk files every entry it adds under its own name. */
  lemma {:induction false} FlatWalkNamed(ps: seq<(string, Yaml)>, t: VarMap)
    requires NamedByKey(t)
    decreases |ps|
    ensures FlatWalk(ps, t).Ok? ==> NamedByKey(FlatWalk(ps, t).value)
  {
    if ps != [] && ps[0].0 !in t {
      FlatWalkNamed(ps[1..], if ps[0].1.YMap? then t else t[ps[0].0 := DefaultEntry(ps[0].0, Str(ps[0].1))]);
    }
  }

  /** So does `parse_defaults`. */
  lemma {:induction false} TopLevelNamed(m: Yaml, i: nat, t: VarMap)
    requires m.YMap? && i <= |m.entries| && NamedByKey(t)
    decreases |m.entries| - i
    ensures TopLevel(m, i, t).Ok? ==> NamedByKey(TopLevel(m, i, t).value)
  {
    if i < |m.entries| && m.entries[i].0 !in t {
      var key, value := m.entries[i].0, m.entries[i].1;
      if value.YMap? {
        FlattenIsFlatWalk(key, value, 0, t);
        FlatWalkNamed(Paths(key, value, 0), t);
        match FlattenDict(key, value, 0, t)
        case Err(_) =>
        case Ok(t') => TopLevelNamed(m, i + 1, t');
      } else {
        match ScalarDefault(value)
        case Err(_) =>
        case Ok(d) => TopLevelNamed(m, i + 1, t[key := DefaultEntry(key, d)]);
      }
    }
  }

  /** `parse_defaults` once the document is loaded: an empty document changes
      nothing and a non-dict one fails; the errors are the duplicate error
      and the attribute error alone; on success no entry that was there is
      changed, every entry stays filed under its own name, and every new
      name comes from one item of the document. */
  lemma ParseDefaultsShape(doc: Yaml, t: VarMap, k: string)
    requires NamedByKey(t)
    ensures !Truthy(doc) ==> ParseDefaultsSpec(doc, t) == Ok(t)
    ensures Truthy(doc) && !doc.YMap? ==> ParseDefaultsSpec(doc, t) == Err(AttributeFailure)
    ensures ParseDefaultsSpec(doc, t).Err? ==> ParseDefaultsSpec(doc, t).error in {DuplicateVariable, AttributeFailure}
    ensures ParseDefaultsSpec(doc, t).Ok? ==>
      var r := ParseDefaultsSpec(doc, t).value;
      && (forall x :: x in t ==> x in r && r[x] == t[x])
      && NamedByKey(r)
      && (k in r && k !in t ==> doc.YMap? && exists j :: 0 <= j < |doc.entries| && EntryFrom(doc, j, k, r[k]))
  {
    if Truthy(doc) && doc.YMap? {
      TopLevelKeeps(doc, 0, t);
      TopLevelNamed(doc, 0, t);
      TopLevelErrors(doc, 0, t);
      if TopLevel(doc, 0, t).Ok? && k in TopLevel(doc, 0, t).value && k !in t {
        TopLevelAdds(doc, 0, t, k);
      }
    }
  }

  /** The nested walk fails only with the duplicate error. */
  lemma FlattenErrors(prefix: string, m: Yaml, t: VarMap)
    requires m.YMap?
    ensures FlattenDict(prefix, m, 0, t).Err? ==> FlattenDict(prefix, m, 0, t).error == DuplicateVariable
  {
    FlattenIsFlatWalk(prefix, m, 0, t);
    FlatWalkFails(Paths(prefix, m, 0), t);
  }

  /** The top-level loop fails only with the duplicate error, or the
      attribute error of a lookup value that is not a string. */
  lemma {:induction false} TopLevelErrors(m: Yaml, i: nat, t: VarMap)
    requires m.YMap? && i <= |m.entries|
    decreases |m.entries| - i
    ensures TopLevel(m, i, t).Err? ==> TopLevel(m, i, t).error in {DuplicateVariable, AttributeFailure}
  {
    if i < |m.entries| && m.entries[i].0 !in t {
      var key, value := m.entries[i].0, m.entries[i].1;
      if value.YMap? {
        FlattenErrors(key, value, t);
        match FlattenDict(key, value, 0, t)
        case Err(_) =>
        case Ok(t') => TopLevelErrors(m, i + 1, t');
      } else {
        match ScalarDefault(value)
        case Err(_) =>
        case Ok(d) => TopLevelErrors(m, i + 1, t[key := DefaultEntry(key, d)]);
      }
    }
  }

  /** A lookup default is a piece of the text it came from. */
  lemma LookupDefaultWithin(s: string)
    ensures |LookupDefault(s)| <= |s|
    ensures forall c :: c in LookupDefault(s) ==> c in s
  {
    var u := Slice(s, Find(s, "default"), -2);
    StripShape(u);
    LStripShape(u);
    RStripShape(LStrip(u));
    SliceWithin(s, Find(s, "default"), -2);
    SliceWithin(Strip(u), |"default"| + 1, Find(u, ","));
  }

  /** The lookup value of the docstring of `parse_defaults`,
      `{{ lookup('env','HOME') | default('/root', true) }}`, written in two
      halves that meet where "default" starts. */
  const LookupText: string := "{{ lookup('env','HOME') | " + "default('/root', true) }}"

  lemma LookupFindExample()
    ensures Find(LookupText, "default") == 26
  {
    var b := "default('/root', true) }}";
    assert b[..7] == "default";
    FindAfter("{{ lookup('env','HOME') | ", b, "default");
  }

  lemma LookupSliceExample()
    ensures Slice(LookupText, 26, -2) == "default('/root', true) "
  {
    var b := "default('/root', true) }}";
    assert |LookupText| == 51;
    assert LookupText[26..] == b;
    assert LookupText[26..49] == b[..23];
  }

  lemma LookupStripExample()
    ensures Strip("default('/root', true) ") == "default('/root', true)"
  {
    var u := "default('/root', true) ";
    assert LStrip(u) == u;
    assert u[..22] == "default('/root', true)";
  }

  lemma LookupCommaExample()
    ensures Find("default('/root', true) ", ",") == 15
  {
    var a := "default('/root'";
    var b := ", true) ";
    var u := a + b;
    assert u == "default('/root', true) ";
    assert u[15..16] == b[..1] == ",";
    assert ',' !in a && u[..15] == a;
    FindAt(u, ",", 15);
  }

  lemma LookupCutExample()
    ensures Slice("default('/root', true)", 8, 15) == "'/root'"
  {
    var v := "default('/root', true)";
    assert |v| == 22;
    assert v[8..15] == "'/root'";
  }

  lemma LookupDefaultSteps(s: string, u: string, c: int)
    requires Slice(s, Find(s, "default"), -2) == u && Find(u, ",") == c
    ensures LookupDefault(s) == Slice(Strip(u), 8, c)
  {
  }

  /** The example of the docstring: the lookup's default `'/root'`, quotes kept. */
  lemma LookupDefaultExample()
    ensures LookupDefault(LookupText) == "'/root'"
  {
    var s := LookupText;
    var u := "default('/root', true) ";
    LookupFindExample();
    LookupSliceExample();
    LookupStripExample();
    LookupCommaExample();
    LookupCutExample();
    LookupDefaultSteps(s, u, 15);
  }

  /** `parse_defaults` in place, from the loaded document on. */
  method ParseDefaults(doc: Yaml, table: VarTable) returns (outcome: Outcome)
    modifies table
    ensures Agrees(ParseDefaultsSpec(doc, old(table.entries)), outcome, table.entries)
  {
    var defaults := if Truthy(doc) then doc else YMap([]);
    if !defaults.YMap? {
      return Fail(AttributeFailure);
    }
    var i := 0;
    while i < |defaults.entries|
      invariant 0 <= i <= |defaults.entries|
      invariant ParseDefaultsSpec(doc, old(table.entries)) == TopLevel(defaults, i, table.entries)
    {
      var key, value := defaults.entries[i].0, defaults.entries[i].1;
      ghost var t := table.entries;
      if key in table.entries {
        assert TopLevel(defaults, i, t) == Err(DuplicateVariable);
        return Fail(DuplicateVariable);
      } else if value.YMap? {
        outcome := ParseDictVariable(key, value, table);
        if outcome.Fail? {
          assert TopLevel(defaults, i, t) == Err(outcome.error);
          return;
        }
        assert TopLevel(defaults, i, t) == TopLevel(defaults, i + 1, table.entries);
      } else if Contains(Str(value), "default") && Contains(Str(value), "lookup") {
        if !value.YStr? {
          assert TopLevel(defaults, i, t) == Err(AttributeFailure);
          return Fail(AttributeFailure);
        }
        var cleanValue := LookupDefault(value.s);
        table.entries := table.entries[key := DefaultEntry(key, cleanValue)];
        assert TopLevel(defaults, i, t) == TopLevel(defaults, i + 1, table.entries);
      } else {
        table.entries := table.entries[key := DefaultEntry(key, Str(value))];
        assert TopLevel(defaults, i, t) == TopLevel(defaults, i + 1, table.entries);
      }
      i := i + 1;
    }
    return Pass;
  }
}
