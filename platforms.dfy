/** `parse_support_platform`: the supported platforms that the role's metadata
    lists under `galaxy_info`, once `yaml.safe_load` has read it. */
module Platforms {
  import opened Results
  import opened PyStr
  import opened YamlValue
  import opened Types
  import opened Tables

  /** The innermost loop from the `i`-th version on:
      `table[version] = SupportPlatform(name, version)` for each version of one
      platform; a version that cannot be a dict key stops the run. */
  function StoreVersions(name: Yaml, vs: seq<Yaml>, i: nat, t: PlatformMap): Result<PlatformMap>
    requires i <= |vs|
    decreases |vs| - i
  {
    if i == |vs| then Ok(t)
    else if !Hashable(vs[i]) then Err(TypeFailure)
    else StoreVersions(name, vs, i + 1, t.Put(vs[i], SupportPlatform(name, vs[i])))
  }

  /** What `for version in platforms.get('versions')` walks over, when the
      platform is a dict whose versions are iterable. */
  function Versions(platform: Yaml): (r: Result<seq<Yaml>>)
    ensures !platform.YMap? ==> r == Err(AttributeFailure)
    ensures platform.YMap? ==> (r.Err? <==> Get(platform.entries, "versions").YNull? || Get(platform.entries, "versions").YOther?)
    ensures platform.YMap? && r.Err? ==> r.error == TypeFailure
  {
    if !platform.YMap? then Err(AttributeFailure) else Iterate(Get(platform.entries, "versions"))
  }

  /** The platform's `name`, `None` when it has none. */
  function PlatformName(platform: Yaml): Yaml
    requires platform.YMap?
  {
    Get(platform.entries, "name")
  }

  /** The loop over the items of `platforms` from the `i`-th on. */
  function StorePlatforms(items: seq<Yaml>, i: nat, t: PlatformMap): Result<PlatformMap>
    requires i <= |items|
    decreases |items| - i
  {
    if i == |items| then Ok(t)
    else
      var vs :- Versions(items[i]);
      var t' :- StoreVersions(PlatformName(items[i]), vs, 0, t);
      StorePlatforms(items, i + 1, t')
  }

  /** The loop over the items of a `galaxy_info` dict from the `i`-th on:
      only a list under the key `platforms` is read. */
  function StoreGalaxyInfo(entries: seq<(string, Yaml)>, i: nat, t: PlatformMap): Result<PlatformMap>
    requires i <= |entries|
    decreases |entries| - i
  {
    if i == |entries| then Ok(t)
    else if entries[i].1.YList? && entries[i].0 == "platforms" then
      var t' :- StorePlatforms(entries[i].1.items, 0, t);
      StoreGalaxyInfo(entries, i + 1, t')
    else StoreGalaxyInfo(entries, i + 1, t)
  }

  /** The loop over the top-level items of the metadata from the `i`-th on:
      every key that contains "galaxy_info" must hold a dict. */
  function StoreMeta(entries: seq<(string, Yaml)>, i: nat, t: PlatformMap): Result<PlatformMap>
    requires i <= |entries|
    decreases |entries| - i
  {
    if i == |entries| then Ok(t)
    else if Contains(entries[i].0, "galaxy_info") then
      if !entries[i].1.YMap? then Err(AttributeFailure)
      else
        var t' :- StoreGalaxyInfo(entries[i].1.entries, 0, t);
        StoreMeta(entries, i + 1, t')
    else StoreMeta(entries, i + 1, t)
  }

  /** `parse_support_platform` once the document is loaded: `meta or {}` must be a dict. */
  function ParseSupportPlatformSpec(meta: Yaml, t: PlatformMap): Result<PlatformMap>
  {
    if !Truthy(meta) then Ok(t)
    else if !meta.YMap? then Err(AttributeFailure)
    else StoreMeta(meta.entries, 0, t)
  }

  /** Every platform is filed under its own version, a value that can be a
      dict key (not a list, not a dict). */
  predicate KeyedByVersion(t: PlatformMap)
  {
    forall k :: k in t.entries ==> t.entries[k].version == k && Hashable(k)
  }

  /** `t'` is `t` with entries replaced or added: every key keeps its
      position in the insertion order, new keys come after. */
  predicate KeepsOrder(t: PlatformMap, t': PlatformMap)
  {
    && (forall k :: k in t.entries ==> k in t'.entries)
    && |t.keys| <= |t'.keys| && t'.keys[..|t.keys|] == t.keys
  }

  /** What the table looks like after storing `vs` under `name`, when it works. */
  ghost predicate StoredVersions(name: Yaml, vs: seq<Yaml>, t: PlatformMap, t': PlatformMap)
  {
    && (forall k :: k in t'.entries <==> k in t.entries || k in vs)
    && (forall k :: k in vs ==> t'.entries[k] == SupportPlatform(name, k))
    && (forall k :: k in t.entries && k !in vs ==> t'.entries[k] == t.entries[k])
  }

  /** Storing the versions of one platform fails exactly when a version is a
      list or a dict, which cannot be a dict key. */
  lemma {:induction false} StoreVersionsFails(name: Yaml, vs: seq<Yaml>, i: nat, t: PlatformMap)
    requires i <= |vs|
    decreases |vs| - i
    ensures StoreVersions(name, vs, i, t).Err? <==> exists j :: i <= j < |vs| && !Hashable(vs[j])
    ensures StoreVersions(name, vs, i, t).Err? ==> StoreVersions(name, vs, i, t).error == TypeFailure
  {
    if i < |vs| && Hashable(vs[i]) {
      StoreVersionsFails(name, vs, i + 1, t.Put(vs[i], SupportPlatform(name, vs[i])));
    }
  }

  /** On success each version maps to this platform and the other entries stay. */
  lemma {:induction false} StoreVersionsContents(name: Yaml, vs: seq<Yaml>, i: nat, t: PlatformMap)
    requires i <= |vs|
    requires StoreVersions(name, vs, i, t).Ok?
    decreases |vs| - i
    ensures StoredVersions(name, vs[i..], t, StoreVersions(name, vs, i, t).value)
  {
    if i < |vs| {
      var t1 := t.Put(vs[i], SupportPlatform(name, vs[i]));
      StoreVersionsContents(name, vs, i + 1, t1);
      assert vs[i..] == [vs[i]] + vs[i + 1..];
    }
  }

  /** One `table[version] = SupportPlatform(name, version)` keeps the order,
      the form and the filing by version. */
  lemma PutShape(t: PlatformMap, k: Yaml, name: Yaml)
    requires Hashable(k)
    ensures var t1 := t.Put(k, SupportPlatform(name, k));
      && KeepsOrder(t, t1)
      && (t.Valid() ==> t1.Valid())
      && (KeyedByVersion(t) ==> KeyedByVersion(t1))
  {
    var t1 := t.Put(k, SupportPlatform(name, k));
    if t.Valid() {
      PutValid(t, k, SupportPlatform(name, k));
    }
    assert t1.keys[..|t.keys|] == t.keys;
  }

  lemma KeepsOrderTrans(a: PlatformMap, b: PlatformMap, c: PlatformMap)
    requires KeepsOrder(a, b) && KeepsOrder(b, c)
    ensures KeepsOrder(a, c)
  {
    assert c.keys[..|a.keys|] == c.keys[..|b.keys|][..|a.keys|];
  }

  /** Storing versions keeps the table well formed, filed by version and in order. */
  lemma {:induction false} StoreVersionsShape(name: Yaml, vs: seq<Yaml>, i: nat, t: PlatformMap)
    requires i <= |vs|
    decreases |vs| - i
    ensures StoreVersions(name, vs, i, t).Ok? ==>
      var t' := StoreVersions(name, vs, i, t).value;
      && KeepsOrder(t, t')
      && (t.Valid() ==> t'.Valid())
      && (KeyedByVersion(t) ==> KeyedByVersion(t'))
  {
    if i < |vs| && Hashable(vs[i]) {
      var t1 := t.Put(vs[i], SupportPlatform(name, vs[i]));
      PutShape(t, vs[i], name);
      StoreVersionsShape(name, vs, i + 1, t1);
      match StoreVersions(name, vs, i + 1, t1)
      case Err(_) =>
      case Ok(t') => KeepsOrderTrans(t, t1, t');
    } else {
      assert t.keys[..|t.keys|] == t.keys;
    }
  }

  /** The platforms loop fails when an item is not a dict or its versions are
      missing or not iterable: success means every item had a versions list. */
  lemma {:induction false} StorePlatformsNeedsVersions(items: seq<Yaml>, i: nat, t: PlatformMap, j: nat)
    requires i <= j < |items|
    requires StorePlatforms(items, i, t).Ok?
    decreases |items| - i
    ensures Versions(items[j]).Ok?
    ensures items[j].YMap? && !Get(items[j].entries, "versions").YNull?
  {
    if i < j {
      var vs := Versions(items[i]).value;
      StorePlatformsNeedsVersions(items, i + 1, StoreVersions(PlatformName(items[i]), vs, 0, t).value, j);
    }
  }

  /** The platforms loop keeps the table well formed, filed by version and
      in insertion order. */
  lemma {:induction false} StorePlatformsShape(items: seq<Yaml>, i: nat, t: PlatformMap)
    requires i <= |items|
    decreases |items| - i
    ensures StorePlatforms(items, i, t).Ok? ==>
      var t' := StorePlatforms(items, i, t).value;
      && KeepsOrder(t, t')
      && (t.Valid() ==> t'.Valid())
      && (KeyedByVersion(t) ==> KeyedByVersion(t'))
  {
    if i < |items| && Versions(items[i]).Ok? {
      var vs := Versions(items[i]).value;
      StoreVersionsShape(PlatformName(items[i]), vs, 0, t);
      match StoreVersions(PlatformName(items[i]), vs, 0, t)
      case Err(_) =>
      case Ok(t1) =>
        StorePlatformsShape(items, i + 1, t1);
        match StorePlatforms(items, i + 1, t1)
        case Err(_) =>
        case Ok(t') =>
          assert t'.keys[..|t.keys|] == t'.keys[..|t1.keys|][..|t.keys|];
    }
  }

  /** Platform `j` lists version `v`. */
  predicate Lists(platform: Yaml, v: Yaml)
  {
    Versions(platform).Ok? && v in Versions(platform).value
  }

  /** A later platform overwrites an earlier one: on success, a version maps
      to the last platform that lists it, with that platform's name. */
  lemma {:induction false} StorePlatformsLastWins(items: seq<Yaml>, i: nat, t: PlatformMap, j: nat, v: Yaml)
    requires i <= j < |items| && Lists(items[j], v)
    requires forall l :: j < l < |items| ==> !Lists(items[l], v)
    requires StorePlatforms(items, i, t).Ok?
    decreases |items| - i
    ensures v in StorePlatforms(items, i, t).value.entries
    ensures StorePlatforms(items, i, t).value.entries[v] == SupportPlatform(PlatformName(items[j]), v)
  {
    var vs := Versions(items[i]).value;
    var t1 := StoreVersions(PlatformName(items[i]), vs, 0, t).value;
    StoreVersionsContents(PlatformName(items[i]), vs, 0, t);
    assert vs[0..] == vs;
    if i < j {
      StorePlatformsLastWins(items, i + 1, t1, j, v);
    } else {
      StorePlatformsUntouched(items, i + 1, t1, v);
    }
  }

  /** A version that no remaining platform lists keeps its entry. */
  lemma {:induction false} StorePlatformsUntouched(items: seq<Yaml>, i: nat, t: PlatformMap, v: Yaml)
    requires i <= |items| && v in t.entries
    requires forall l :: i <= l < |items| ==> !Lists(items[l], v)
    requires StorePlatforms(items, i, t).Ok?
    decreases |items| - i
    ensures v in StorePlatforms(items, i, t).value.entries
    ensures StorePlatforms(items, i, t).value.entries[v] == t.entries[v]
  {
    if i < |items| {
      var vs := Versions(items[i]).value;
      StoreVersionsContents(PlatformName(items[i]), vs, 0, t);
      assert vs[0..] == vs;
      StorePlatformsUntouched(items, i + 1, StoreVersions(PlatformName(items[i]), vs, 0, t).value, v);
    }
  }

  /** `galaxy_info` items other than a list under `platforms` are skipped. */
  lemma {:induction false} GalaxyInfoSkips(entries: seq<(string, Yaml)>, i: nat, t: PlatformMap)
    requires i <= |entries|
    requires forall j :: i <= j < |entries| ==> !(entries[j].1.YList? && entries[j].0 == "platforms")
    decreases |entries| - i
    ensures StoreGalaxyInfo(entries, i, t) == Ok(t)
  {
    if i < |entries| {
      GalaxyInfoSkips(entries, i + 1, t);
    }
  }

  /** Metadata with no key containing "galaxy_info" leaves the table as it was. */
  lemma {:induction false} MetaSkips(entries: seq<(string, Yaml)>, i: nat, t: PlatformMap)
    requires i <= |entries|
    requires forall j :: i <= j < |entries| ==> !Contains(entries[j].0, "galaxy_info")
    decreases |entries| - i
    ensures StoreMeta(entries, i, t) == Ok(t)
  {
    if i < |entries| {
      MetaSkips(entries, i + 1, t);
    }
  }

  /** The `galaxy_info` loop keeps the table well formed, filed by version
      and in order, and makes the stores of its `platforms` lists. */
  lemma {:induction false} GalaxyInfoShape(entries: seq<(string, Yaml)>, i: nat, t: PlatformMap)
    requires i <= |entries|
    decreases |entries| - i
    ensures StoreGalaxyInfo(entries, i, t).Ok? ==>
      var t' := StoreGalaxyInfo(entries, i, t).value;
      && KeepsOrder(t, t') && (t.Valid() ==> t'.Valid()) && (KeyedByVersion(t) ==> KeyedByVersion(t'))
      && t' == PutAll(GalaxyStores(entries, i), t)
  {
    GalaxyInfoStores(entries, i, t);
    if i < |entries| {
      if entries[i].1.YList? && entries[i].0 == "platforms" {
        StorePlatformsShape(entries[i].1.items, 0, t);
        match StorePlatforms(entries[i].1.items, 0, t)
        case Err(_) =>
        case Ok(t1) =>
          GalaxyInfoShape(entries, i + 1, t1);
          match StoreGalaxyInfo(entries, i + 1, t1)
          case Err(_) =>
          case Ok(t') =>
            assert t'.keys[..|t.keys|] == t'.keys[..|t1.keys|][..|t.keys|];
      } else {
        GalaxyInfoShape(entries, i + 1, t);
      }
    } else {
      assert t.keys[..|t.keys|] == t.keys;
    }
  }

  /** The top-level loop stops with an `AttributeFailure` at a key that
      contains "galaxy_info" but holds no dict. */
  lemma {:induction false} MetaNeedsDicts(entries: seq<(string, Yaml)>, i: nat, t: PlatformMap)
    requires i <= |entries|
    decreases |entries| - i
    ensures StoreMeta(entries, i, t).Ok? ==>
      forall j :: i <= j < |entries| && Contains(entries[j].0, "galaxy_info") ==> entries[j].1.YMap?
  {
    if i < |entries| {
      if !Contains(entries[i].0, "galaxy_info") {
        MetaNeedsDicts(entries, i + 1, t);
      } else if entries[i].1.YMap? && StoreGalaxyInfo(entries[i].1.entries, 0, t).Ok? {
        MetaNeedsDicts(entries, i + 1, StoreGalaxyInfo(entries[i].1.entries, 0, t).value);
      }
    }
  }

  /** The top-level loop keeps the table well formed, filed by version and
      in order, and makes the stores of every `galaxy_info` dict; it succeeds
      only when every key containing "galaxy_info" holds a dict. */
  lemma {:induction false} MetaShape(entries: seq<(string, Yaml)>, i: nat, t: PlatformMap)
    requires i <= |entries|
    decreases |entries| - i
    ensures StoreMeta(entries, i, t).Ok? ==>
      var t' := StoreMeta(entries, i, t).value;
      && KeepsOrder(t, t') && (t.Valid() ==> t'.Valid()) && (KeyedByVersion(t) ==> KeyedByVersion(t'))
      && t' == PutAll(MetaStores(entries, i), t)
    ensures StoreMeta(entries, i, t).Ok? ==>
      forall j :: i <= j < |entries| && Contains(entries[j].0, "galaxy_info") ==> entries[j].1.YMap?
  {
    MetaStoresMade(entries, i, t);
    MetaNeedsDicts(entries, i, t);
    if i < |entries| {
      if Contains(entries[i].0, "galaxy_info") && entries[i].1.YMap? {
        GalaxyInfoShape(entries[i].1.entries, 0, t);
        match StoreGalaxyInfo(entries[i].1.entries, 0, t)
        case Err(_) =>
        case Ok(t1) =>
          MetaShape(entries, i + 1, t1);
          match StoreMeta(entries, i + 1, t1)
          case Err(_) =>
          case Ok(t') =>
            assert t'.keys[..|t.keys|] == t'.keys[..|t1.keys|][..|t.keys|];
      } else if !Contains(entries[i].0, "galaxy_info") {
        MetaShape(entries, i + 1, t);
      }
    } else {
      assert t.keys[..|t.keys|] == t.keys;
    }
  }

  /** `parse_support_platform` keeps the table well formed and filed by
      version, adds keys only at the end, leaves it alone for empty metadata,
      fails on metadata that is not a dict or whose "galaxy_info" key holds no
      dict, and otherwise makes the stores of the document in order. */
  lemma ParseSupportPlatformShape(meta: Yaml, t: PlatformMap)
    ensures !Truthy(meta) ==> ParseSupportPlatformSpec(meta, t) == Ok(t)
    ensures Truthy(meta) && !meta.YMap? ==> ParseSupportPlatformSpec(meta, t) == Err(AttributeFailure)
    ensures ParseSupportPlatformSpec(meta, t).Ok? ==>
      var t' := ParseSupportPlatformSpec(meta, t).value;
      && KeepsOrder(t, t') && (t.Valid() ==> t'.Valid()) && (KeyedByVersion(t) ==> KeyedByVersion(t'))
      && t' == PutAll(DocStores(meta), t)
    ensures Truthy(meta) && meta.YMap? && ParseSupportPlatformSpec(meta, t).Ok? ==>
      forall j :: 0 <= j < |meta.entries| && Contains(meta.entries[j].0, "galaxy_info") ==> meta.entries[j].1.YMap?
  {
    if Truthy(meta) && meta.YMap? {
      MetaShape(meta.entries, 0, t);
    } else {
      assert t.keys[..|t.keys|] == t.keys;
    }
  }

  /** Two platforms that list the same version: the second one's name wins,
      and the version keeps the single position it was first given. */
  lemma OverwriteExample()
    ensures var el := YMap([("name", YStr("EL")), ("versions", YList([YStr("7")], "['7']"))]);
      var fedora := YMap([("name", YStr("Fedora")), ("versions", YList([YStr("7")], "['7']"))]);
      StorePlatforms([el, fedora], 0, EmptyPlatforms)
        == Ok(PlatformMap([YStr("7")], map[YStr("7") := SupportPlatform(YStr("Fedora"), YStr("7"))]))
  {
    var el := YMap([("name", YStr("EL")), ("versions", YList([YStr("7")], "['7']"))]);
    var fedora := YMap([("name", YStr("Fedora")), ("versions", YList([YStr("7")], "['7']"))]);
    assert Versions(el) == Ok([YStr("7")]) && PlatformName(el) == YStr("EL");
    assert Versions(fedora) == Ok([YStr("7")]) && PlatformName(fedora) == YStr("Fedora");
    var t1 := EmptyPlatforms.Put(YStr("7"), SupportPlatform(YStr("EL"), YStr("7")));
    assert StoreVersions(YStr("EL"), [YStr("7")], 0, EmptyPlatforms) == Ok(t1);
    var t2 := t1.Put(YStr("7"), SupportPlatform(YStr("Fedora"), YStr("7")));
    assert StoreVersions(YStr("Fedora"), [YStr("7")], 0, t1) == Ok(t2);
    assert StorePlatforms([el, fedora], 2, t2) == Ok(t2);
    assert StorePlatforms([el, fedora], 1, t1) == Ok(t2);
    assert StorePlatforms([el, fedora], 0, EmptyPlatforms) == Ok(t2);
    assert t2.keys == [YStr("7")];
    assert t2.entries == map[YStr("7") := SupportPlatform(YStr("Fedora"), YStr("7"))];
  }

  /** The stores in the order the loops make them: each is a version and
      the platform filed under it. */
  type Stores = seq<(Yaml, SupportPlatform)>

  /** `table[k] = v` for each store in turn. */
  function PutAll(ps: Stores, t: PlatformMap): PlatformMap
    decreases |ps|
  {
    if ps == [] then t else PutAll(ps[1..], t.Put(ps[0].0, ps[0].1))
  }

  /** The stores of one platform's versions from the `i`-th on. */
  function VersionStores(name: Yaml, vs: seq<Yaml>, i: nat): (r: Stores)
    requires i <= |vs|
    decreases |vs| - i
    ensures |r| == |vs| - i
    ensures forall j :: 0 <= j < |r| ==> r[j] == (vs[i + j], SupportPlatform(name, vs[i + j]))
  {
    if i == |vs| then [] else [(vs[i], SupportPlatform(name, vs[i]))] + VersionStores(name, vs, i + 1)
  }

  /** The stores of the items of `platforms` from the `i`-th on. */
  function PlatformStores(items: seq<Yaml>, i: nat): Stores
    requires i <= |items|
    decreases |items| - i
  {
    if i == |items| then []
    else if items[i].YMap? && Versions(items[i]).Ok? then
      VersionStores(PlatformName(items[i]), Versions(items[i]).value, 0) + PlatformStores(items, i + 1)
    else PlatformStores(items, i + 1)
  }

  /** The stores of the items of a `galaxy_info` dict from the `i`-th on. */
  function GalaxyStores(entries: seq<(string, Yaml)>, i: nat): Stores
    requires i <= |entries|
    decreases |entries| - i
  {
    if i == |entries| then []
    else if entries[i].1.YList? && entries[i].0 == "platforms" then
      PlatformStores(entries[i].1.items, 0) + GalaxyStores(entries, i + 1)
    else GalaxyStores(entries, i + 1)
  }

  /** The stores of the top-level items of the metadata from the `i`-th on. */
  function MetaStores(entries: seq<(string, Yaml)>, i: nat): Stores
    requires i <= |entries|
    decreases |entries| - i
  {
    if i == |entries| then []
    else if Contains(entries[i].0, "galaxy_info") && entries[i].1.YMap? then
      GalaxyStores(entries[i].1.entries, 0) + MetaStores(entries, i + 1)
    else MetaStores(entries, i + 1)
  }

  /** The stores of the whole document. */
  function DocStores(meta: Yaml): Stores
  {
    if Truthy(meta) && meta.YMap? then MetaStores(meta.entries, 0) else []
  }

  lemma {:induction false} PutAllAppend(a: Stores, b: Stores, t: PlatformMap)
    decreases |a|
    ensures PutAll(a + b, t) == PutAll(b, PutAll(a, t))
  {
    if a == [] {
      assert a + b == b;
    } else {
      assert (a + b)[1..] == a[1..] + b;
      PutAllAppend(a[1..], b, t.Put(a[0].0, a[0].1));
    }
  }

  /** The innermost loop makes the stores of its versions, in order. */
  lemma {:induction false} StoreVersionsStores(name: Yaml, vs: seq<Yaml>, i: nat, t: PlatformMap)
    requires i <= |vs|
    decreases |vs| - i
    ensures StoreVersions(name, vs, i, t).Ok? ==> StoreVersions(name, vs, i, t).value == PutAll(VersionStores(name, vs, i), t)
  {
    if i < |vs| && Hashable(vs[i]) {
      var ps := VersionStores(name, vs, i);
      assert ps[1..] == VersionStores(name, vs, i + 1);
      StoreVersionsStores(name, vs, i + 1, t.Put(vs[i], SupportPlatform(name, vs[i])));
    }
  }

  /** The platforms loop makes the stores of its items, in order. */
  lemma {:induction false} StorePlatformsStores(items: seq<Yaml>, i: nat, t: PlatformMap)
    requires i <= |items|
    decreases |items| - i
    ensures StorePlatforms(items, i, t).Ok? ==> StorePlatforms(items, i, t).value == PutAll(PlatformStores(items, i), t)
  {
    if i < |items| && Versions(items[i]).Ok? {
      var vs := Versions(items[i]).value;
      var name := PlatformName(items[i]);
      StoreVersionsStores(name, vs, 0, t);
      if StoreVersions(name, vs, 0, t).Ok? {
        var t1 := StoreVersions(name, vs, 0, t).value;
        StorePlatformsStores(items, i + 1, t1);
        PutAllAppend(VersionStores(name, vs, 0), PlatformStores(items, i + 1), t);
      }
    }
  }

  /** The `galaxy_info` loop makes the stores of its `platforms` lists, in order. */
  lemma {:induction false} GalaxyInfoStores(entries: seq<(string, Yaml)>, i: nat, t: PlatformMap)
    requires i <= |entries|
    decreases |entries| - i
    ensures StoreGalaxyInfo(entries, i, t).Ok? ==> StoreGalaxyInfo(entries, i, t).value == PutAll(GalaxyStores(entries, i), t)
  {
    if i < |entries| {
      if entries[i].1.YList? && entries[i].0 == "platforms" {
        StorePlatformsStores(entries[i].1.items, 0, t);
        if StorePlatforms(entries[i].1.items, 0, t).Ok? {
          var t1 := StorePlatforms(entries[i].1.items, 0, t).value;
          GalaxyInfoStores(entries, i + 1, t1);
          PutAllAppend(PlatformStores(entries[i].1.items, 0), GalaxyStores(entries, i + 1), t);
        }
      } else {
        GalaxyInfoStores(entries, i + 1, t);
      }
    }
  }

  /** The top-level loop makes the stores of every `galaxy_info` dict, in order. */
  lemma {:induction false} MetaStoresMade(entries: seq<(string, Yaml)>, i: nat, t: PlatformMap)
    requires i <= |entries|
    decreases |entries| - i
    ensures StoreMeta(entries, i, t).Ok? ==> StoreMeta(entries, i, t).value == PutAll(MetaStores(entries, i), t)
  {
    if i < |entries| {
      if Contains(entries[i].0, "galaxy_info") && entries[i].1.YMap? {
        GalaxyInfoStores(entries[i].1.entries, 0, t);
        if StoreGalaxyInfo(entries[i].1.entries, 0, t).Ok? {
          var t1 := StoreGalaxyInfo(entries[i].1.entries, 0, t).value;
          MetaStoresMade(entries, i + 1, t1);
          PutAllAppend(GalaxyStores(entries[i].1.entries, 0), MetaStores(entries, i + 1), t);
        }
      } else if !Contains(entries[i].0, "galaxy_info") {
        MetaStoresMade(entries, i + 1, t);
      }
    }
  }

  /** Storing adds exactly the stored keys. */
  lemma {:induction false} PutAllKeys(ps: Stores, t: PlatformMap, k: Yaml)
    decreases |ps|
    ensures k in PutAll(ps, t).entries <==> k in t.entries || exists j :: 0 <= j < |ps| && ps[j].0 == k
  {
    if ps != [] {
      PutAllKeys(ps[1..], t.Put(ps[0].0, ps[0].1), k);
      if exists j :: 0 <= j < |ps[1..]| && ps[1..][j].0 == k {
        var j :| 0 <= j < |ps[1..]| && ps[1..][j].0 == k;
        assert ps[j + 1].0 == k;
      }
      if exists j :: 0 <= j < |ps| && ps[j].0 == k {
        var j :| 0 <= j < |ps| && ps[j].0 == k;
        if j > 0 {
          assert ps[1..][j - 1].0 == k;
        }
      }
    }
  }

  /** A key no store names keeps its entry. */
  lemma {:induction false} PutAllUntouched(ps: Stores, t: PlatformMap, k: Yaml)
    requires forall j :: 0 <= j < |ps| ==> ps[j].0 != k
    requires k in t.entries
    decreases |ps|
    ensures k in PutAll(ps, t).entries && PutAll(ps, t).entries[k] == t.entries[k]
  {
    if ps != [] {
      assert ps[0].0 != k;
      assert forall j :: 0 <= j < |ps[1..]| ==> ps[1..][j].0 == ps[j + 1].0;
      PutAllUntouched(ps[1..], t.Put(ps[0].0, ps[0].1), k);
    }
  }

  /** The last store of a key wins. */
  lemma {:induction false} PutAllLast(ps: Stores, t: PlatformMap, j: nat)
    requires j < |ps|
    requires forall l :: j < l < |ps| ==> ps[l].0 != ps[j].0
    decreases |ps|
    ensures ps[j].0 in PutAll(ps, t).entries && PutAll(ps, t).entries[ps[j].0] == ps[j].1
  {
    var t1 := t.Put(ps[0].0, ps[0].1);
    assert forall l :: 0 <= l < |ps[1..]| ==> ps[1..][l] == ps[l + 1];
    if j == 0 {
      PutAllUntouched(ps[1..], t1, ps[0].0);
    } else {
      PutAllLast(ps[1..], t1, j - 1);
    }
  }

  /** Every store files a platform under its own version. */
  lemma {:induction false} StoresKeyed(entries: seq<(string, Yaml)>, i: nat)
    requires i <= |entries|
    decreases |entries| - i
    ensures forall j :: 0 <= j < |MetaStores(entries, i)| ==> MetaStores(entries, i)[j].1.version == MetaStores(entries, i)[j].0
  {
    if i < |entries| {
      StoresKeyed(entries, i + 1);
      if Contains(entries[i].0, "galaxy_info") && entries[i].1.YMap? {
        GalaxyKeyed(entries[i].1.entries, 0);
      }
    }
  }

  lemma {:induction false} GalaxyKeyed(entries: seq<(string, Yaml)>, i: nat)
    requires i <= |entries|
    decreases |entries| - i
    ensures forall j :: 0 <= j < |GalaxyStores(entries, i)| ==> GalaxyStores(entries, i)[j].1.version == GalaxyStores(entries, i)[j].0
  {
    if i < |entries| {
      GalaxyKeyed(entries, i + 1);
      if entries[i].1.YList? && entries[i].0 == "platforms" {
        PlatformKeyed(entries[i].1.items, 0);
      }
    }
  }

  lemma {:induction false} PlatformKeyed(items: seq<Yaml>, i: nat)
    requires i <= |items|
    decreases |items| - i
    ensures forall j :: 0 <= j < |PlatformStores(items, i)| ==> PlatformStores(items, i)[j].1.version == PlatformStores(items, i)[j].0
  {
    if i < |items| {
      PlatformKeyed(items, i + 1);
    }
  }

  /** What `parse_support_platform` leaves in the table: the stores of the
      document, in the order its loops meet the platforms. So a key is in
      the new table exactly when it was in the old one or a platform lists
      it; a listed version maps to the last store under it, which is that
      version with the name of the last platform listing it; and a key no
      platform lists keeps its entry. */
  lemma ParseSupportPlatformContents(meta: Yaml, t: PlatformMap, k: Yaml)
    requires ParseSupportPlatformSpec(meta, t).Ok?
    ensures var t' := ParseSupportPlatformSpec(meta, t).value;
      var ps := DocStores(meta);
      && t' == PutAll(ps, t)
      && (k in t'.entries <==> k in t.entries || exists j :: 0 <= j < |ps| && ps[j].0 == k)
      && (forall j :: 0 <= j < |ps| && ps[j].0 == k && (forall l :: j < l < |ps| ==> ps[l].0 != k) ==>
            k in t'.entries && t'.entries[k] == ps[j].1 && ps[j].1.version == k)
      && ((forall j :: 0 <= j < |ps| ==> ps[j].0 != k) && k in t.entries ==> t'.entries[k] == t.entries[k])
  {
    var ps := DocStores(meta);
    if Truthy(meta) && meta.YMap? {
      MetaStoresMade(meta.entries, 0, t);
      StoresKeyed(meta.entries, 0);
    }
    PutAllKeys(ps, t, k);
    forall j | 0 <= j < |ps| && ps[j].0 == k && (forall l :: j < l < |ps| ==> ps[l].0 != k)
      ensures k in PutAll(ps, t).entries && PutAll(ps, t).entries[k] == ps[j].1
    {
      PutAllLast(ps, t, j);
    }
    if (forall j :: 0 <= j < |ps| ==> ps[j].0 != k) && k in t.entries {
      PutAllUntouched(ps, t, k);
    }
  }

  /** The innermost loop, on the table in place. */
  method AddVersions(name: Yaml, vs: seq<Yaml>, table: PlatformTable) returns (outcome: Outcome)
    modifies table
    ensures Agrees(StoreVersions(name, vs, 0, old(table.Value())), outcome, table.Value())
  {
    ghost var start := table.Value();
    var i := 0;
    while i < |vs|
      invariant 0 <= i <= |vs|
      invariant StoreVersions(name, vs, 0, start) == StoreVersions(name, vs, i, table.Value())
    {
      var version := vs[i];
      if !Hashable(version) {
        return Fail(TypeFailure);
      }
      ghost var before := table.Value();
      table.Put(version, SupportPlatform(name, version));
      assert StoreVersions(name, vs, i, before) == StoreVersions(name, vs, i + 1, table.Value());
      i := i + 1;
    }
    return Pass;
  }

  /** The loop over the items of `platforms`, on the table in place. */
  method AddPlatforms(items: seq<Yaml>, table: PlatformTable) returns (outcome: Outcome)
    modifies table
    ensures Agrees(StorePlatforms(items, 0, old(table.Value())), outcome, table.Value())
  {
    var i := 0;
    while i < |items|
      invariant 0 <= i <= |items|
      invariant StorePlatforms(items, 0, old(table.Value())) == StorePlatforms(items, i, table.Value())
    {
      var platforms := items[i];
      if !platforms.YMap? {
        return Fail(AttributeFailure);
      }
      var versions := Iterate(Get(platforms.entries, "versions"));
      if versions.Err? {
        return Fail(versions.error);
      }
      outcome := AddVersions(Get(platforms.entries, "name"), versions.value, table);
      if outcome.Fail? {
        return;
      }
      i := i + 1;
    }
    return Pass;
  }

  /** The loop over the items of one `galaxy_info` dict, on the table in place. */
  method AddGalaxyInfo(entries: seq<(string, Yaml)>, table: PlatformTable) returns (outcome: Outcome)
    modifies table
    ensures Agrees(StoreGalaxyInfo(entries, 0, old(table.Value())), outcome, table.Value())
  {
    var i := 0;
    while i < |entries|
      invariant 0 <= i <= |entries|
      invariant StoreGalaxyInfo(entries, 0, old(table.Value())) == StoreGalaxyInfo(entries, i, table.Value())
    {
      var subKey, subValue := entries[i].0, entries[i].1;
      if subValue.YList? && subKey == "platforms" {
        outcome := AddPlatforms(subValue.items, table);
        if outcome.Fail? {
          return;
        }
      }
      i := i + 1;
    }
    return Pass;
  }

  /** `parse_support_platform`, from the loaded document on, on the table in place. */
  method ParseSupportPlatform(meta: Yaml, table: PlatformTable) returns (outcome: Outcome)
    modifies table
    ensures Agrees(ParseSupportPlatformSpec(meta, old(table.Value())), outcome, table.Value())
  {
    var doc := if Truthy(meta) then meta else YMap([]);
    if !doc.YMap? {
      return Fail(AttributeFailure);
    }
    var i := 0;
    while i < |doc.entries|
      invariant 0 <= i <= |doc.entries|
      invariant ParseSupportPlatformSpec(meta, old(table.Value())) == StoreMeta(doc.entries, i, table.Value())
    {
      var key, value := doc.entries[i].0, doc.entries[i].1;
      if Contains(key, "galaxy_info") {
        if !value.YMap? {
          return Fail(AttributeFailure);
        }
        outcome := AddGalaxyInfo(value.entries, table);
        if outcome.Fail? {
          return;
        }
      }
      i := i + 1;
    }
    return Pass;
  }
}
