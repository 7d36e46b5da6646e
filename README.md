# AnsiRoleMd core, modelled in Dafny

AnsiRoleMd writes a README for an Ansible role. It collects the role's
variables from three places: the files under `defaults/`, the `{{ ... }}`
uses in its task files, and the platforms named in `meta/main.yml`. It then
drops the names that Ansible and Jinja define themselves, and renders two
markdown tables: "Role Variables" and "Supported Platforms".

This project models that core once YAML has been loaded:

- `Types`: the records `Varible` (the program's own spelling) and
  `SupportPlatform`, with their field defaults.
- `YamlValue`: a loaded YAML value (null, string, other scalar, list, or a
  mapping with string keys in document order).
- `Tables`: the mutable collections the parsers fill in place. These are the
  variable dict (its contents, since the program sorts it before use), the
  registered-names list, and the platform dict (a key keeps the position of
  its first insertion when its value is replaced).
- `TemplateVars`: `parse_used_variable`, and `scan_variables`. The
  expression `re.findall("{{[A-Za-z0-9 -_.|]*}}", line)` is modelled by a
  matcher written for that pattern alone. Inside the class, `-` spans
  space to `_`.
- `Defaults`: `parse_dict_variable`, and `parse_defaults` after
  `yaml.safe_load`. Nested dicts are flattened into `outer:inner` names.
  A repeated name is an error. The `lookup(...) | default(...)` values are
  reduced to their default.
- `Tasks`: `parse_tasks` over a file system given as a map from path to
  lines. These behaviours are kept as written:
  - `sub_task` keeps its value for a following register line, so such a
    line walks the last included file again;
  - an included file is walked non-recursively, with a fresh registered
    list that is then appended to the caller's, so a name the caller
    registered is still entered when the included file uses it;
  - the caller's registered list is extended in place.
- `Platforms`: `parse_support_platform` after `yaml.safe_load`, storing
  `table[version] = SupportPlatform(name, version)`.
- `BuildMd`: `clear_ansible_vars`, and the part of `build_readme` that sorts
  the variables, builds both matrices and renders both tables.
- `Markdown`: the class `TableMarkdown`.

A Python exception is modelled as an `Err` of `Results.Error`:
- `DuplicateVariable` and `EmptyTable` are the program's own exception;
- `AttributeFailure` and `TypeFailure` cover Python's `AttributeError` and
  `TypeError`;
- `FileNotFound` covers a task file that does not exist.

The methods that change a table return `Outcome`. Each method is proved to
agree with a specification function: on success the new table is the
function's result, and on failure the outcome carries the function's error.
The properties are proved as lemmas about those functions.

## Model

| member | source | states |
|---|---|---|
| Types.VaribleDefaults | ansirolemd/types.py:10-17 | A `Varible` built from name, required and default gets "Please fill the description.", "-" and "Please fill the example." for the remaining fields, in that positional order |
| Types.VaribleFieldDefaults | ansirolemd/types.py:11-14 | `Varible()` has the empty name, required "No" and default "-" |
| Types.PlatformDefaults | ansirolemd/types.py:4-7 | `SupportPlatform()` is os "" on version "ALL" |
| YamlValue.Get | ansirolemd/parser.py:215-216 | `dict.get`: a non-None result is the value stored under the key; an absent key gives None |
| YamlValue.Iterate | ansirolemd/parser.py:215 | iterating fails exactly on None or a non-iterable scalar; a list yields its items, a string its characters as one-character strings, a dict its keys, each in order |
| PyStr.LStripShape | ansirolemd/parser.py:82 | `lstrip` removes a leading run of whitespace and leaves the rest starting with a non-space |
| PyStr.RStripShape | ansirolemd/parser.py:82 | `rstrip` removes a trailing run of whitespace and leaves the rest ending with a non-space |
| PyStr.Find | ansirolemd/parser.py:85 | `str.find`: -1 when the substring occurs nowhere, otherwise its first occurrence |
| PyStr.RStripChar | ansirolemd/parser.py:137 | `rstrip('\n')` keeps a prefix that does not end in a line break and drops nothing but line breaks |
| PyStr.UpToNewline | ansirolemd/parser.py:145 | what `.*` matches: the longest prefix without a line break |
| PyStr.StripShape | ansirolemd/parser.py:82 | `strip` leaves no white space at either end and adds no character |
| PyStr.StripPadded | ansirolemd/parser.py:82 | a text with no white space at its ends, padded with one space on one or both sides, strips back to itself |
| PyStr.SliceWithin | ansirolemd/parser.py:61-62 | a slice holds only characters of the string |
| PyStr.ReplaceChar | ansirolemd/parser.py:89 | `replace(a, b)` keeps the length and puts `b` exactly where `a` was, every other character unchanged |
| PyStr.RemoveChar | ansirolemd/parser.py:89 | `replace(c, "")` keeps exactly the characters other than `c` |
| PyStr.RemoveCharAppend | ansirolemd/parser.py:89 | `replace(c, "")` on a concatenation is the concatenation of the two results |
| PyStr.RemoveCharAbsent | ansirolemd/parser.py:89 | `replace(c, "")` changes nothing when `c` is absent |
| PyStr.ReplaceCharAbsent | ansirolemd/parser.py:89 | `replace(a, b)` changes nothing when `a` is absent |
| PyStr.ReplaceCharAppend | ansirolemd/parser.py:89 | `replace(a, b)` on a concatenation is the concatenation of the two results |
| PyStr.RemoveAll | ansirolemd/parser.py:149 | `replace("register:", "")` gives a text no longer than its input and made of its characters |
| PyStr.RemoveAllAbsent | ansirolemd/parser.py:149 | a text without the first character of the key is left as it is |
| PyStr.RemoveAllNone | ansirolemd/parser.py:149 | a text in which the key occurs nowhere is left as it is |
| PyStr.RemoveAllHead | ansirolemd/parser.py:149 | a leading key is removed |
| PyStr.RemoveAllKeeps | ansirolemd/parser.py:149 | a leading character that cannot start the key is kept |
| PyStr.Dirname | ansirolemd/parser.py:158 | `os.path.dirname` is a prefix of the path, empty exactly when the path has no `/` |
| TemplateVars.ClassRange | ansirolemd/parser.py:104 | the class `[A-Za-z0-9 -_.\|]` is exactly space to `_`, the lower-case letters and `\|`; it holds `[`, `]`, quotes, parentheses, `:` and `,`, and not the braces |
| TemplateVars.RunEnd | ansirolemd/parser.py:104 | the greedy run of class characters from a position ends at the first character outside the class |
| TemplateVars.MatchAt | ansirolemd/parser.py:104 | a match that starts at a position spans at least the four braces and ends within the line |
| TemplateVars.MatchAtIsToken | ansirolemd/parser.py:104 | the match starting at a position ends at `e` exactly when the text between is a `{{`, a run of class characters and a `}}` |
| TemplateVars.FindAllFrom | ansirolemd/parser.py:104 | every match that `findall` reports is such a token |
| TemplateVars.FindAll | ansirolemd/parser.py:104 | every match `findall` reports on a line is such a token |
| TemplateVars.FindAllFromNext | ansirolemd/parser.py:104 | from a position, `findall` reports the leftmost match and goes on where that match ends |
| TemplateVars.FindAllFromEmpty | ansirolemd/parser.py:104-105 | no match is reported from a position exactly when no match starts at or after it |
| TemplateVars.FindAllEmpty | ansirolemd/parser.py:104-105 | a line gives no match exactly when none of its slices is a token |
| TemplateVars.CutAtDot | ansirolemd/parser.py:85-86 | the name is the part before the first `.`: it holds no `.`, is followed by the `.` when there is one, and is the whole text without one |
| TemplateVars.ParseUsedVariable | ansirolemd/parser.py:70-90 | the result holds no `.` and no `[`; without `[` it is the stripped, cut name; with `[` no `]` or quote is left |
| TemplateVars.SliceExample | ansirolemd/parser.py:82 | `"{{ some_var.out }}"[2:-2]` is `" some_var.out "` |
| TemplateVars.StripExample | ansirolemd/parser.py:82 | stripping it gives `"some_var.out"` |
| TemplateVars.CutExample | ansirolemd/parser.py:85-86 | cutting at the dot gives `"some_var"` |
| TemplateVars.UsedVariableExample | ansirolemd/parser.py:73-75 | `{{ some_var.out }}` gives `some_var` |
| TemplateVars.SliceBraces | ansirolemd/parser.py:82 | `[2:-2]` drops the two braces on each side |
| TemplateVars.BracedInner | ansirolemd/parser.py:82 | inside `{{ ` and ` }}`, slicing and stripping give back a text with no white space at its ends |
| TemplateVars.BareBraced | ansirolemd/parser.py:82-86 | such a text without a dot is taken whole |
| TemplateVars.UsedPlain | ansirolemd/parser.py:70-90 | `{{ x }}` names `x` for every plain name `x` |
| TemplateVars.CutAttribute | ansirolemd/parser.py:85-86 | cutting `x.a` at the first dot gives `x` when `x` has no dot |
| TemplateVars.UsedAttribute | ansirolemd/parser.py:73-86 | `{{ x.a }}`, an attribute or a filter after the dot, names `x` |
| TemplateVars.SubscriptBare | ansirolemd/parser.py:82-86 | the slice and strip of `{{ x['k'] }}` leave `x['k']` |
| TemplateVars.SubscriptReplace | ansirolemd/parser.py:89 | `replace("[", ":")` turns it into `x:'k']` |
| TemplateVars.SubscriptRemove | ansirolemd/parser.py:89 | removing `]` and the quotes then leaves `x:k` |
| TemplateVars.UsedSubscript | ansirolemd/parser.py:88-89 | `{{ x['k'] }}` names the path `x:k` |
| TemplateVars.SubscriptExample | ansirolemd/parser.py:88-89 | `{{ a['b'] }}` names `a:b` |
| TemplateVars.UsedEntry | ansirolemd/parser.py:112 | a used variable is entered under its name as required "Yes" with default "-", and the record's description, value and example placeholders |
| TemplateVars.ScanMatches | ansirolemd/parser.py:107-112 | the matches only add entries; each added name is non-empty, not registered and a used-variable entry; no match changes nothing |
| TemplateVars.ScanMatchesUnfold | ansirolemd/parser.py:107 | the matches are handled one after another, in order |
| TemplateVars.ScanMatchesSource | ansirolemd/parser.py:109-112 | every name added is the parsed name of one of the line's matches |
| TemplateVars.ScanMatchesComplete | ansirolemd/parser.py:111-112 | every non-empty, unregistered parsed name of a match ends up in the table |
| TemplateVars.ScanStepEffect | ansirolemd/parser.py:109-112 | one match keeps every entry; the only name it can add is its parsed name, as a used-variable entry, and a new name is added exactly when it is non-empty and not registered |
| TemplateVars.ScanLineEffect | ansirolemd/parser.py:104-112 | a name not yet in the table is in it after the scan exactly when it is non-empty, not registered, and the parsed name of one of the line's matches |
| TemplateVars.ScanKeepsNames | ansirolemd/parser.py:111-112 | scanning keeps every entry filed under its own name |
| TemplateVars.ScanVariables | ansirolemd/parser.py:93-112 | the table in place becomes the scanned table of the line |
| Defaults.FlatWalkAppend | ansirolemd/parser.py:32-34 | walking a nested dict then the rest of the dict is walking their concatenated paths |
| Defaults.FlattenIsFlatWalk | ansirolemd/parser.py:24-36 | the recursive flattening is a walk over the pre-order list of `parent:child` paths |
| Defaults.FlatWalkKeeps | ansirolemd/parser.py:29-30 | on success, no existing entry is changed or removed |
| Defaults.FlatWalkAddsLeaves | ansirolemd/parser.py:36 | every added name is the full path of a non-dict leaf, entered with "No" as required and the leaf as default |
| Defaults.FlatWalkStoresLeaves | ansirolemd/parser.py:32-36 | on success, every leaf path is in the table |
| Defaults.FlatWalkFails | ansirolemd/parser.py:28-30 | the walk fails exactly when some path, dict or leaf, is already in the table when it is reached, and the error is the duplicate error |
| Defaults.FlattenKeeps | ansirolemd/parser.py:24-36 | flattening a dict keeps every prior entry |
| Defaults.ParseDictVariable | ansirolemd/parser.py:12-36 | the table in place follows the flattening, and fails when it fails |
| Defaults.TopLevelKeeps | ansirolemd/parser.py:52-65 | on success, defaults never overwrite or remove an existing entry |
| Defaults.TopLevelRejectsKnown | ansirolemd/parser.py:53-55 | a default already in the table fails the parse |
| Defaults.TopLevelScalarHere | ansirolemd/parser.py:64-65 | on success, the scalar at the current position is entered under its key and stays to the end |
| Defaults.TopLevelScalars | ansirolemd/parser.py:59-65 | on success, a scalar default is entered under its key with "No" and its cleaned value |
| Defaults.TopLevelLeavesHere | ansirolemd/parser.py:57-58 | on success, the leaves of the dict at the current position are entered and stay to the end |
| Defaults.TopLevelLeaves | ansirolemd/parser.py:56-58 | on success, every leaf of a dict default is entered under its joined path |
| Defaults.TopLevelAdds | ansirolemd/parser.py:52-65 | on success, every new name is a top-level scalar key with its cleaned value, or the joined path of a non-dict value inside a top-level dict with that value |
| Defaults.FlatWalkNamed | ansirolemd/parser.py:36 | the nested walk files every entry under its own name |
| Defaults.TopLevelNamed | ansirolemd/parser.py:52-65 | so does the top-level loop |
| Defaults.FlattenErrors | ansirolemd/parser.py:28-30 | the nested walk fails only with the duplicate error |
| Defaults.TopLevelErrors | ansirolemd/parser.py:52-65 | the top-level loop fails only with the duplicate error or the attribute error of a non-string lookup value |
| Defaults.ParseDefaultsShape | ansirolemd/parser.py:50-65 | an empty document changes nothing; a non-dict fails; the only errors are those two; on success no entry is changed, every entry stays under its own name, and every new name comes from one item of the document |
| Defaults.LookupDefaultWithin | ansirolemd/parser.py:61-62 | the cleaned lookup value is no longer than the text and made of its characters |
| Defaults.LookupFindExample | ansirolemd/parser.py:61 | in `{{ lookup('env','HOME') \| default('/root', true) }}`, `default` is first found at 26 |
| Defaults.LookupSliceExample | ansirolemd/parser.py:61 | the slice from there to -2 is `default('/root', true) ` |
| Defaults.LookupStripExample | ansirolemd/parser.py:61 | stripping it gives `default('/root', true)` |
| Defaults.LookupCommaExample | ansirolemd/parser.py:62 | the first comma of the unstripped slice is at 15 |
| Defaults.LookupCutExample | ansirolemd/parser.py:62 | the stripped text from 8 to 15 is `'/root'` |
| Defaults.LookupDefaultSteps | ansirolemd/parser.py:61-62 | the cleaned value is the stripped slice from 8 up to the comma position of the unstripped slice |
| Defaults.LookupDefaultExample | ansirolemd/parser.py:60-63 | that lookup value gives `'/root'` |
| Defaults.ParseDefaults | ansirolemd/parser.py:50-65 | the table in place follows the specification: an empty document changes nothing, a non-dict fails, and a non-string lookup value fails |
| Tasks.Declaration | ansirolemd/parser.py:145-149 | a declaration is found exactly when the line contains the key followed by a space |
| Tasks.DeclarationShape | ansirolemd/parser.py:145-149 | a declared name lies on one line and has no white space at its ends |
| Tasks.DeclarationFound | ansirolemd/parser.py:145 | the search finds the key right after a prefix that lacks the key's first character |
| Tasks.DeclarationRemoved | ansirolemd/parser.py:149 | removing the key from the match leaves the space and the name |
| Tasks.DeclarationOf | ansirolemd/parser.py:145-149 | a line of a prefix, the key, a space and a name declares that name |
| Tasks.RegisterExample | ansirolemd/parser.py:145-149 | `  register: out` registers `out` |
| Tasks.IncludeExample | ansirolemd/parser.py:154-159 | `- include: setup.yml` includes `setup.yml` |
| Tasks.IncludePathShape | ansirolemd/parser.py:158-159 | the included path is the directory of the file, a `/`, then the name |
| Tasks.Step | ansirolemd/parser.py:141-168 | only a recursive walk leaves an include target pending |
| Tasks.StepExtends | ansirolemd/parser.py:141-168 | a line only adds: files and registered names at the end, table entries kept; every listed file exists |
| Tasks.WalkExtends | ansirolemd/parser.py:140-170 | the same for the whole loop |
| Tasks.PlainWalk | ansirolemd/parser.py:152-168 | a non-recursive walk adds no file, and never enters a name registered earlier |
| Tasks.RegisterLine | ansirolemd/parser.py:145-151 | a register line appends its name and is not scanned |
| Tasks.IncludeLine | ansirolemd/parser.py:152-166 | an include line is not scanned; a missing file changes nothing; an existing file is listed once and its table and registered names are taken over |
| Tasks.PlainLine | ansirolemd/parser.py:167-168 | any other line is scanned against the registered names |
| Tasks.WalkUnfold | ansirolemd/parser.py:137-170 | each line loses its trailing line breaks and the loop moves to the next line |
| Tasks.RegisterRepeatsInclude | ansirolemd/parser.py:147-163 | a register line with a target pending walks the target again |
| Tasks.IncludeThenRegister | ansirolemd/parser.py:134-163 | an include line followed by a register line lists the included file twice |
| Tasks.StepNamed | ansirolemd/parser.py:141-168 | a line keeps every entry filed under its own name |
| Tasks.WalkNamed | ansirolemd/parser.py:140-170 | so does the loop |
| Tasks.RecursiveScanSuppresses | ansirolemd/parser.py:152-168 | in a recursive walk, a line of the file itself that declares nothing is scanned against the registered list, so a registered name not yet in the table stays out |
| Tasks.IncludedScanForgets | ansirolemd/parser.py:161 | the included file is scanned with an empty registered list: after a register line and an include line, the included line is scanned as if nothing were registered |
| Tasks.OneLineWalk | ansirolemd/parser.py:140-168 | a non-recursive walk of a one-line file scans that line |
| Tasks.RegisteredUsedInInclude | ansirolemd/parser.py:145-168 | so a name registered just before an include is entered when the included file uses it |
| Tasks.Pending | ansirolemd/parser.py:147-154 | after a register line the include target stays as it was; after any other line it is that line's include |
| Tasks.TargetFile | ansirolemd/parser.py:156-160 | the pending target's file is listed only when it exists |
| Tasks.Targets | ansirolemd/parser.py:156-163 | the included files met from a line on all exist |
| Tasks.StepFiles | ansirolemd/parser.py:141-168 | in a recursive walk, one line leaves the pending target as `Pending` says and lists exactly its existing file |
| Tasks.WalkFiles | ansirolemd/parser.py:140-170 | a recursive walk lists, after the files it started with, exactly the included files it meets, in order |
| Tasks.ParseTasksShape | ansirolemd/parser.py:130-172 | it fails only on a missing file; the list starts with the file, followed in a recursive call by the existing include targets in the order met and in a non-recursive one by nothing; every listed file exists; the table and registered list only grow; entries stay under their own names |
| Tasks.ParseTasks | ansirolemd/parser.py:115-172 | the registered list is the caller's or a fresh one; the files, table and registered names are those of the specification walk |
| Tables.PlatformMap.Put | ansirolemd/parser.py:216 | after `table[k] = v`, `k` maps to `v`, every other key keeps its entry and no other key appears; a new key is appended to the order and an existing one keeps its place |
| Tables.PutValid | ansirolemd/parser.py:216 | it keeps every key listed exactly once |
| Tables.PlatformTable.Put | ansirolemd/parser.py:216 | the same, on the dict in place |
| Platforms.StoreVersionsFails | ansirolemd/parser.py:215-216 | storing fails exactly when a version is a list or a dict, with a type error |
| Platforms.Versions | ansirolemd/parser.py:214-215 | a platform that is not a dict fails with the attribute error; a dict fails, with the type error, exactly when its versions are missing or not iterable |
| Platforms.VersionStores | ansirolemd/parser.py:215-216 | the stores of one platform are each version with `SupportPlatform(name, version)`, in order |
| Platforms.PutAllAppend | ansirolemd/parser.py:214-216 | storing two lists of stores is storing their concatenation |
| Platforms.StoreVersionsStores | ansirolemd/parser.py:215-216 | on success, the versions loop applies its stores in order |
| Platforms.StorePlatformsStores | ansirolemd/parser.py:214-216 | on success, the platforms loop applies the stores of each platform in order |
| Platforms.GalaxyInfoStores | ansirolemd/parser.py:212-216 | on success, the `galaxy_info` loop applies the stores of its `platforms` lists in order |
| Platforms.MetaStoresMade | ansirolemd/parser.py:210-216 | on success, the top-level loop applies the stores of each `galaxy_info` dict in order |
| Platforms.PutAllKeys | ansirolemd/parser.py:216 | after the stores, a key is present exactly when it was or some store names it |
| Platforms.PutAllUntouched | ansirolemd/parser.py:216 | a key no store names keeps its entry |
| Platforms.PutAllLast | ansirolemd/parser.py:216 | the last store of a key wins |
| Platforms.PlatformKeyed | ansirolemd/parser.py:216 | every store of a platforms list files a platform under its own version |
| Platforms.GalaxyKeyed | ansirolemd/parser.py:216 | the same for a `galaxy_info` dict |
| Platforms.StoresKeyed | ansirolemd/parser.py:216 | the same for the whole metadata |
| Platforms.MetaNeedsDicts | ansirolemd/parser.py:211-212 | success means every key containing `galaxy_info` held a dict |
| Platforms.ParseSupportPlatformContents | ansirolemd/parser.py:209-216 | on success the table is the old one with the document's stores applied in order: a key is present exactly when it was or a platform lists it, a listed version maps to the platform of its last store, filed under that version, and an unlisted key keeps its entry |
| Platforms.StoreVersionsContents | ansirolemd/parser.py:215-216 | each version is filed with `SupportPlatform(name, version)`, the other entries are kept, and nothing else is added |
| Platforms.PutShape | ansirolemd/parser.py:216 | one store keeps the insertion order and the table well formed and filed by version |
| Platforms.StoreVersionsShape | ansirolemd/parser.py:215-216 | storing keeps the insertion order and the table well formed and filed by version |
| Platforms.StorePlatformsNeedsVersions | ansirolemd/parser.py:214-215 | success means every platform was a dict with a versions entry that can be iterated |
| Platforms.StorePlatformsShape | ansirolemd/parser.py:214-216 | the platforms loop keeps the order and the table well formed and filed by version |
| Platforms.StorePlatformsLastWins | ansirolemd/parser.py:214-216 | a version takes the name of the last platform that lists it |
| Platforms.StorePlatformsUntouched | ansirolemd/parser.py:214-216 | a version no platform lists keeps its entry |
| Platforms.GalaxyInfoSkips | ansirolemd/parser.py:212-213 | without a list under `platforms`, a `galaxy_info` dict changes nothing |
| Platforms.MetaSkips | ansirolemd/parser.py:210-211 | without a key containing `galaxy_info`, the metadata changes nothing |
| Platforms.GalaxyInfoShape | ansirolemd/parser.py:212-216 | the `galaxy_info` loop keeps the order and the table well formed and filed by version, and applies the stores of its `platforms` lists in order |
| Platforms.MetaShape | ansirolemd/parser.py:210-216 | the top-level loop keeps the same and applies the stores of every `galaxy_info` dict in order; it succeeds only when every key containing `galaxy_info` holds a dict |
| Platforms.ParseSupportPlatformShape | ansirolemd/parser.py:209-216 | empty metadata changes nothing; non-dict metadata fails; success keeps the order and the form, applies the document's stores in order, and means every `galaxy_info` key held a dict |
| Platforms.OverwriteExample | ansirolemd/parser.py:216 | EL then Fedora on version "7" leaves Fedora under "7", a single key |
| Platforms.AddVersions | ansirolemd/parser.py:215-216 | the dict in place follows the versions loop |
| Platforms.AddPlatforms | ansirolemd/parser.py:214-216 | the dict in place follows the platforms loop |
| Platforms.AddGalaxyInfo | ansirolemd/parser.py:212-216 | the dict in place follows the `galaxy_info` loop |
| Platforms.ParseSupportPlatform | ansirolemd/parser.py:209-216 | the dict in place follows the specification |
| BuildMd.ClearedTable | ansirolemd/build_md.py:28-38 | after clearing, a name is kept exactly when it was there and is not reserved, with its entry unchanged |
| BuildMd.ClearIdempotent | ansirolemd/build_md.py:28-38 | clearing twice is clearing once |
| BuildMd.ClearKeepsNames | ansirolemd/build_md.py:37-38 | clearing keeps every entry filed under its own name |
| BuildMd.ReservedExamples | ansirolemd/build_md.py:30-33 | `item`, `item:key`, `ansible_facts`, `hostvars` and `hostvars_extra` are reserved |
| BuildMd.ReservedForms | ansirolemd/build_md.py:30-33 | every name starting with `ansible_`, `hostvars` or `item:`, and every name holding `lookup(`, is reserved, whatever surrounds the pattern |
| BuildMd.ReservedLookup | ansirolemd/build_md.py:30 | a `lookup(` call is reserved |
| BuildMd.KeptExample | ansirolemd/build_md.py:30-33 | `items` is not reserved |
| BuildMd.ReservedKeys | ansirolemd/build_md.py:28-34 | the collected names are exactly the reserved names of the table |
| BuildMd.DeleteKeys | ansirolemd/build_md.py:37-38 | deleting keeps exactly the names not collected, each with its entry unchanged |
| BuildMd.ClearAnsibleVars | ansirolemd/build_md.py:11-38 | the dict in place becomes the cleared table |
| BuildMd.AscendingUnique | ansirolemd/build_md.py:55 | two strictly ascending lists of the same names are equal, so the sorted order is unique |
| BuildMd.Minimum | ansirolemd/build_md.py:55 | the chosen name is smaller than every other name of the set |
| BuildMd.SortKeys | ansirolemd/build_md.py:55 | the keys are listed strictly ascending, each key once |
| BuildMd.VariableRow | ansirolemd/build_md.py:60-62 | a variable row has one cell per header |
| BuildMd.VariableMatrix | ansirolemd/build_md.py:59-62 | one row per listed name |
| BuildMd.ParsedListable | ansirolemd/build_md.py:63-64 | a parsed platform table can be listed |
| BuildMd.PlatformRow | ansirolemd/build_md.py:64 | a platform row has one cell per header |
| BuildMd.PlatformMatrix | ansirolemd/build_md.py:63-64 | one row per key |
| BuildMd.SortedCount | ansirolemd/build_md.py:55 | the sorted names are as many as the entries |
| BuildMd.VariableRows | ansirolemd/build_md.py:59-62 | row `i` has six cells holding the fields of the entry under the `i`-th name, the name first |
| BuildMd.VariableRowsComplete | ansirolemd/build_md.py:59-62 | every entry has its row |
| BuildMd.VariableMatrixShape | ansirolemd/build_md.py:55-62 | one six-cell row per cleared entry, in header order, named by its key, strictly ascending, none reserved, every entry present |
| BuildMd.PlatformMatrixShape | ansirolemd/build_md.py:63-64 | one two-cell row per entry, in table order: the name, then the version |
| BuildMd.SortedEmpty | ansirolemd/build_md.py:55 | the sorted names are empty exactly when the table is |
| BuildMd.VariableCells | ansirolemd/build_md.py:59-62 | every cell of the variable matrix is a string |
| BuildMd.PlatformCells | ansirolemd/build_md.py:63-64 | the platform matrix is empty exactly when the table is, and its cells are strings exactly when all names are |
| BuildMd.ReadmeTablesFail | ansirolemd/build_md.py:66-69 | no variables, then no platforms, give the empty-table error; a non-string platform name gives a type error; otherwise both tables render |
| BuildMd.BuildVariableMatrix | ansirolemd/build_md.py:59-62 | the loop builds the row of each variable, in order |
| BuildMd.BuildPlatformMatrix | ansirolemd/build_md.py:63-64 | the loop builds the platform matrix |
| BuildMd.BuildReadme | ansirolemd/build_md.py:54-69 | the variable dict is cleared in place, and the result is both tables rendered from the sorted names |
| Markdown.PlainHeaders | ansirolemd/build_md.py:66-67 | headers given as strings carry no alignment |
| Markdown.AlignMark | ansirolemd/markdown.py:21-22 | the mark is `:-:` exactly for center, `-:` exactly for right, and `-` for everything else, a missing `align` included |
| Markdown.Separators | ansirolemd/markdown.py:17-24 | one mark per header: `-` for left or unknown, `:-:` for center, `-:` for right |
| Markdown.PlainSeparators | ansirolemd/markdown.py:21-22 | headers without `align` all get `-` |
| Markdown.HeaderTexts | ansirolemd/markdown.py:36 | the header line's parts are the header texts |
| Markdown.CellTexts | ansirolemd/markdown.py:38 | joining a row works exactly when every cell is a string, and fails with a type error otherwise |
| Markdown.RowLines | ansirolemd/markdown.py:38 | each row becomes its cells joined by ` \|`, failing exactly on a non-string cell |
| Markdown.RenderFails | ansirolemd/markdown.py:30-39 | rendering raises exactly on an empty matrix, and otherwise fails only on a non-string cell |
| Markdown.RenderLines | ansirolemd/markdown.py:35-39 | without line breaks in the cells, the output has 2 + rows lines: headers joined by `\|`, separators joined by `\|`, then each row |
| Markdown.RowExample | ansirolemd/markdown.py:38 | a two-cell row joins to `a \|b` |
| Markdown.HeaderLinesExample | ansirolemd/markdown.py:36-37 | headers A and B give the header line `A\|B` and the separator line `-\|-` |
| Markdown.RowLinesExample | ansirolemd/markdown.py:38 | rows x, y and 1, 2 give the lines `x \|y` and `1 \|2` |
| Markdown.LinesExample | ansirolemd/markdown.py:39 | the four lines are joined by line breaks with none at the end |
| Markdown.RenderExample | ansirolemd/markdown.py:30-39 | headers A, B and rows x, y and 1, 2 render as `A\|B\n-\|-\nx \|y\n1 \|2` |
| Markdown.TableMarkdown.constructor | ansirolemd/markdown.py:9-11 | the headers and the matrix are stored as given |
| Markdown.TableMarkdown.GetSeparators | ansirolemd/markdown.py:17-24 | the loop gives the alignment mark of each header, in order |
| Markdown.TableMarkdown.Render | ansirolemd/markdown.py:30-39 | rendering raises the empty-table error exactly on an empty matrix, succeeds exactly when the matrix is non-empty and every cell is a string, and otherwise raises a type error |
| Markdown.TableMarkdown.IsTrue | ansirolemd/markdown.py:41-45 | `__bool__` and `__nonzero__` are true exactly when the matrix is non-empty, that is when rendering does not raise for emptiness |
| Markdown.TableMarkdown.ToString | ansirolemd/markdown.py:47-51 | `__str__` and `__repr__` are the rendered table, and raise as `render` does: the empty-table error exactly on an empty matrix, a type error on a non-string cell |

## Left out

- Reading files and `yaml.safe_load`: the parsers start from the loaded document. The `yaml.YAMLError` handler, which only prints, is not modelled.
- Printing, as in the missing-include message of `parse_tasks`. The `vars_check = False` beside it has no effect: the line is in the `if sub_task` branch, which never scans.
- Reading the task files: they are given as a map from path to lines. `os.path.exists` is membership in that map, so a directory is not modelled.
- `parse_templates` and the Jinja2 template render at the end of `build_readme` (a foreign library). `get_headers` and `get_matrix` are modelled only as the class's fields.
- `ansirolemd.py` (the command line, the walk over `defaults/` and writing the output) and `setup.py` are not part of this model.
- Regular expressions in general: only the three patterns the core uses are modelled, each by its own matcher.
- Python's `str()` of lists, dicts and non-string scalars: such a value is carried with its printed text. Keys of the YAML mappings are strings, and numeric cross-type equality (`7 == 7.0`, `True == 1`) is not modelled.
- The test `type(table) is None` in `clear_ansible_vars` is never true, and is not modelled.
- The state of a table after an exception is not specified, only the error. The program does not catch these exceptions, so the run ends there.
- Defaults.ParseDictVariable: requires a dict, which both of its callers guarantee; calling `.items()` on anything else is not modelled.
- BuildMd.BuildReadme: requires the platform table to be listable (every listed key present, no dict as a version), which every table built by `parse_support_platform` satisfies (BuildMd.ParsedListable).
- BuildMd.SortKeys: sorts by repeatedly taking the minimum rather than by Python's `sorted`. Only the result is modelled: the names in strictly ascending code-point order, which is unique (BuildMd.AscendingUnique).
