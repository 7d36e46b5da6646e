/** The mutable collections the program threads through its parsers: the
    variable dict, the list of registered names, and the platform dict. */
module Tables {
  import opened YamlValue
  import opened Types

  /** The variable dict's contents. It is sorted by key before use, so its
      insertion order is not kept. */
  type VarMap = map<string, Varible>

  /** Every entry is filed under its own name. */
  predicate NamedByKey(t: VarMap)
  {
    forall k :: k in t ==> t[k].name == k
  }

  /** The variable dict that `main` creates and every parser fills in place. */
  class VarTable {
    var entries: VarMap

    constructor ()
      ensures entries == map[]
    {
      entries := map[];
    }
  }

  /** The `registered_vars` list, which `parse_tasks` extends in place. */
  class NameList {
    var items: seq<string>

    constructor ()
      ensures items == []
    {
      items := [];
    }
  }

  /** The contents of the platform dict: a Python dict keeps the position at
      which a key was first inserted, even when its value is replaced. */
  datatype PlatformMap = PlatformMap(keys: seq<Yaml>, entries: map<Yaml, SupportPlatform>)
  {
    /** `keys` lists each key of `entries` exactly once. */
    ghost predicate Valid()
    {
      && (forall k :: k in entries <==> k in keys)
      && (forall i, j :: 0 <= i < j < |keys| ==> keys[i] != keys[j])
    }

    /** `table[k] = v`: afterwards `k` holds `v` and every other key holds
        what it held; the keys already there keep their positions, and a new
        key takes the next one. */
    function Put(k: Yaml, v: SupportPlatform): (r: PlatformMap)
      ensures k in r.entries && r.entries[k] == v
      ensures forall x :: x != k ==> (x in r.entries <==> x in entries)
      ensures forall x :: x != k && x in entries ==> r.entries[x] == entries[x]
      ensures |keys| <= |r.keys| && r.keys[..|keys|] == keys
      ensures |r.keys| == if k in entries then |keys| else |keys| + 1
      ensures k !in entries ==> r.keys[|keys|] == k
    {
      if k in entries then PlatformMap(keys, entries[k := v])
      else PlatformMap(keys + [k], entries[k := v])
    }
  }

  /** `table[k] = v` keeps each key listed exactly once. */
  lemma PutValid(p: PlatformMap, k: Yaml, v: SupportPlatform)
    requires p.Valid()
    ensures p.Put(k, v).Valid()
  {
    var r := p.Put(k, v);
    assert r.entries == p.entries[k := v];
    if k !in p.entries {
      assert r.keys == p.keys + [k];
    } else {
      assert r.keys == p.keys;
    }
  }

  const EmptyPlatforms := PlatformMap([], map[])

  /** The platform dict that `main` creates and `parse_support_platform` fills. */
  class PlatformTable {
    var keys: seq<Yaml>
    var entries: map<Yaml, SupportPlatform>

    function Value(): PlatformMap
      reads this
    {
      PlatformMap(keys, entries)
    }

    constructor ()
      ensures Value() == EmptyPlatforms
    {
      keys, entries := [], map[];
    }

    method Put(k: Yaml, v: SupportPlatform)
      modifies this
      ensures Value() == old(Value()).Put(k, v)
    {
      if k !in entries {
        keys := keys + [k];
      }
      entries := entries[k := v];
    }
  }
}
