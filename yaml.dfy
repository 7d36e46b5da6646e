/** The values `yaml.safe_load` hands to the program. The loader itself is not
    modelled: the model starts from the value it returns. */
module YamlValue {
  import opened Results

  /** A parsed YAML value.
      - `YNull`: `None`.
      - `YStr`: a `str`.
      - `YOther`: an `int`, `float`, `bool` or date; `text` is its `str()` and
        `truthy` its `bool()`. Such values are hashable and not iterable.
      - `YList`: a `list`; `text` is its `str()`, which the loader's caller
        would get from Python's `repr` machinery and which the model takes as given.
      - `YMap`: a `dict` with `str` keys, as its items in insertion order. */
  datatype Yaml =
    | YNull
    | YStr(s: string)
    | YOther(text: string, truthy: bool)
    | YList(items: seq<Yaml>, text: string)
    | YMap(entries: seq<(string, Yaml)>)

  /** `bool(y)`, which decides what `yaml.safe_load(stream) or {}` keeps. */
  predicate Truthy(y: Yaml)
  {
    match y
    case YNull => false
    case YStr(s) => s != []
    case YOther(_, truthy) => truthy
    case YList(items, _) => items != []
    case YMap(entries) => entries != []
  }

  /** `str(y)` for every value the program ever converts (it never converts a dict). */
  function Str(y: Yaml): string
    requires !y.YMap?
  {
    match y
    case YNull => "None"
    case YStr(s) => s
    case YOther(text, _) => text
    case YList(_, text) => text
  }

  /** Whether `y` can be a `dict` key. */
  predicate Hashable(y: Yaml)
  {
    !y.YList? && !y.YMap?
  }

  /** `d.get(key)` on the items of a dict: the value stored under `key`, or `None`. */
  function Get(entries: seq<(string, Yaml)>, key: string): (r: Yaml)
    ensures r != YNull ==> exists i :: 0 <= i < |entries| && entries[i] == (key, r)
    ensures (forall i :: 0 <= i < |entries| ==> entries[i].0 != key) ==> r == YNull
  {
    if entries == [] then YNull
    else if entries[0].0 == key then entries[0].1
    else Get(entries[1..], key)
  }

  /** What `for x in y` walks over: the items of a list, the characters of a
      string, the keys of a dict; `None` and numbers are not iterable. */
  function Iterate(y: Yaml): (r: Result<seq<Yaml>>)
    ensures r.Err? <==> y.YNull? || y.YOther?
    ensures y.YList? ==> r == Ok(y.items)
    ensures y.YStr? ==> r.Ok? && |r.value| == |y.s| && forall i :: 0 <= i < |y.s| ==> r.value[i] == YStr([y.s[i]])
    ensures y.YMap? ==> r.Ok? && |r.value| == |y.entries| && forall i :: 0 <= i < |y.entries| ==> r.value[i] == YStr(y.entries[i].0)
  {
    match y
    case YNull => Err(TypeFailure)
    case YOther(_, _) => Err(TypeFailure)
    case YList(items, _) => Ok(items)
    case YStr(s) => Ok(seq(|s|, i requires 0 <= i < |s| => YStr([s[i]])))
    case YMap(entries) => Ok(seq(|entries|, i requires 0 <= i < |entries| => YStr(entries[i].0)))
  }
}
