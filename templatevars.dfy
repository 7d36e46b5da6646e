/** Detection of template variables in task text: the `{{ ... }}` matcher,
    `parse_used_variable`, and `scan_variables`. */
module TemplateVars {
  import opened Results
  import opened PyStr
  import opened Types
  import opened Tables

  /** The character class `[A-Za-z0-9 -_.|]`. Inside it ` -_` is a range, from
      U+0020 to U+005F, which already holds the digits and capitals. */
  predicate InClass(c: char)
  {
    ('A' <= c <= 'Z') || ('a' <= c <= 'z') || ('0' <= c <= '9') || (' ' <= c <= '_') || c == '.' || c == '|'
  }

  /** The range admits subscript and call punctuation; the braces and the
      backquote stay outside. */
  lemma ClassRange()
    ensures forall c :: InClass(c) <==> (' ' <= c <= '_') || ('a' <= c <= 'z') || c == '|'
    ensures InClass('[') && InClass(']') && InClass('\'') && InClass('(') && InClass(')')
    ensures InClass(':') && InClass(',') && InClass('"')
    ensures !InClass('{') && !InClass('}') && !InClass('`') && !InClass('\n')
  {
  }

  /** The words of the pattern `{{[A-Za-z0-9 -_.|]*}}`. */
  predicate IsToken(w: string)
  {
    && |w| >= 4
    && w[..2] == "{{"
    && w[|w| - 2..] == "}}"
    && forall m :: 2 <= m < |w| - 2 ==> InClass(w[m])
  }

  /** The end of the longest run of class characters that starts at `j`. */
  function RunEnd(line: string, j: nat): (k: nat)
    requires j <= |line|
    decreases |line| - j
    ensures j <= k <= |line|
    ensures forall m :: j <= m < k ==> InClass(line[m])
    ensures k == |line| || !InClass(line[k])
  {
    if j < |line| && InClass(line[j]) then RunEnd(line, j + 1) else j
  }

  /** Where a match tried at `p` ends, when there is one. The starred class
      takes the whole run; since `}` is outside the class, giving characters
      back could never let `}}` match, so the match exists exactly when the
      run is followed by `}}`. */
  function MatchAt(line: string, p: nat): (r: Option<nat>)
    requires p <= |line|
    ensures r.Some? ==> p + 4 <= r.value <= |line|
  {
    if p + 2 <= |line| && line[p..p + 2] == "{{" then
      var q := RunEnd(line, p + 2);
      if q + 2 <= |line| && line[q..q + 2] == "}}" then Some(q + 2) else None
    else None
  }

  /** The matcher agrees with the pattern's language, in both directions: the
      match at `p` ends at `e` exactly when `line[p..e]` is a word of the pattern. */
  lemma MatchAtIsToken(line: string, p: nat, e: nat)
    requires p <= e <= |line|
    ensures MatchAt(line, p) == Some(e) <==> IsToken(line[p..e])
  {
    var w := line[p..e];
    if IsToken(w) {
      assert line[p..p + 2] == w[..2];
      var q := RunEnd(line, p + 2);
      forall m | p + 2 <= m < e - 2
        ensures InClass(line[m])
      {
        assert line[m] == w[m - p];
      }
      assert line[e - 2] == w[|w| - 2] == '}';
      assert q == e - 2;
      assert line[q..q + 2] == w[|w| - 2..];
    }
    if MatchAt(line, p) == Some(e) {
      assert w[..2] == line[p..p + 2];
      assert w[|w| - 2..] == line[e - 2..e];
      forall m | 2 <= m < |w| - 2
        ensures InClass(w[m])
      {
        assert w[m] == line[p + m];
      }
    }
  }

  /** `re.findall` from position `p`: try at each position in turn, and after
      a match continue where it ended. */
  function FindAllFrom(line: string, p: nat): (r: seq<string>)
    requires p <= |line|
    decreases |line| - p
    ensures forall i :: 0 <= i < |r| ==> IsToken(r[i])
  {
    if p == |line| then []
    else match MatchAt(line, p)
      case Some(e) =>
        MatchAtIsToken(line, p, e);
        [line[p..e]] + FindAllFrom(line, e)
      case None => FindAllFrom(line, p + 1)
  }

  /** `re.findall("{{[A-Za-z0-9 -_.|]*}}", line)`. */
  function FindAll(line: string): (r: seq<string>)
    ensures forall i :: 0 <= i < |r| ==> IsToken(r[i])
  {
    FindAllFrom(line, 0)
  }

  /** The scan reports the leftmost match from `p` on and then goes on where
      that match ended: every match the scan reaches is reported, in order. */
  lemma {:induction false} FindAllFromNext(line: string, p: nat, q: nat, e: nat)
    requires p <= q <= |line| && MatchAt(line, q) == Some(e)
    requires forall q' :: p <= q' < q ==> MatchAt(line, q') == None
    decreases q - p
    ensures FindAllFrom(line, p) == [line[q..e]] + FindAllFrom(line, e)
  {
    if p < q {
      FindAllFromNext(line, p + 1, q, e);
    }
  }

  /** No match is found from `p` on exactly when every attempt from `p` on fails. */
  lemma {:induction false} FindAllFromEmpty(line: string, p: nat)
    requires p <= |line|
    decreases |line| - p
    ensures FindAllFrom(line, p) == [] <==> forall q :: p <= q <= |line| ==> MatchAt(line, q) == None
  {
    if p < |line| {
      match MatchAt(line, p)
      case Some(e) =>
      case None =>
        FindAllFromEmpty(line, p + 1);
    }
  }

  /** A line has no match exactly when no piece of it is a word of the
      pattern, that is no `{{`, run of class characters, `}}` anywhere. */
  lemma FindAllEmpty(line: string)
    ensures FindAll(line) == [] <==> forall q, e :: 0 <= q <= e <= |line| ==> !IsToken(line[q..e])
  {
    FindAllFromEmpty(line, 0);
    if FindAll(line) == [] {
      forall q, e | 0 <= q <= e <= |line|
        ensures !IsToken(line[q..e])
      {
        MatchAtIsToken(line, q, e);
      }
    } else {
      var q :| 0 <= q <= |line| && MatchAt(line, q) != None;
      MatchAtIsToken(line, q, MatchAt(line, q).value);
    }
  }

  /** `clean_var[:clean_var.find(".")]` when there is a dot. */
  function CutAtDot(s: string): (r: string)
    ensures '.' !in r
    ensures |r| <= |s| && r == s[..|r|]
    ensures '.' !in s ==> r == s
    ensures '.' in s ==> |r| < |s| && s[|r|] == '.'
  {
    FindChar(s, '.');
    if Find(s, ".") != -1 then Slice(s, 0, Find(s, ".")) else s
  }

  /** `used_var[2:-2].strip()` cut at the first dot. */
  function BareName(usedVar: string): (r: string)
    ensures |r| <= |usedVar|
  {
    var inner := Slice(usedVar, 2, -2);
    LStripShape(inner);
    RStripShape(LStrip(inner));
    CutAtDot(Strip(inner))
  }

  /** `parse_used_variable`: the variable name in a match. The braces and the
      surrounding spaces go, everything from the first `.` on goes (attribute
      access and filters such as `.out`), and when a `[` is left the subscript
      `a['b']` is rewritten to the path `a:b`. */
  function ParseUsedVariable(usedVar: string): (name: string)
    ensures '.' !in name && '[' !in name
    ensures |name| <= |usedVar|
    ensures '[' !in BareName(usedVar) ==> name == BareName(usedVar)
    ensures '[' in BareName(usedVar) ==> ']' !in name && '\'' !in name
  {
    var clean := BareName(usedVar);
    FindChar(clean, '[');
    if Find(clean, "[") != -1 then
      RemoveChar(RemoveChar(ReplaceChar(clean, '[', ':'), ']'), '\'')
    else clean
  }

  lemma SliceExample()
    ensures Slice("{{ some_var.out }}", 2, -2) == " some_var.out "
  {
  }

  lemma StripExample()
    ensures Strip(" some_var.out ") == "some_var.out"
  {
    assert " some_var.out "[1..] == "some_var.out ";
    assert LStrip(" some_var.out ") == "some_var.out ";
    assert "some_var.out "[..12] == "some_var.out";
  }

  lemma CutExample()
    ensures CutAtDot("some_var.out") == "some_var"
  {
    FindChar("some_var.out", '.');
    assert "some_var.out"[8] == '.' && '.' !in "some_var.out"[..8];
  }

  /** The example of the docstring: `{{ some_var.out }}` names `some_var`. */
  lemma UsedVariableExample()
    ensures ParseUsedVariable("{{ some_var.out }}") == "some_var"
  {
    assert "{{ " + "some_var" + "." + "out" + " }}" == "{{ some_var.out }}";
    assert PlainName("some_var") && !IsSpace("out"[0]) && !IsSpace("out"[1]) && !IsSpace("out"[2]);
    UsedAttribute("some_var", "out");
  }

  /** A character of a plain variable name: no white space, no `.`, no
      subscript bracket and no quote. */
  predicate NameChar(c: char)
  {
    !IsSpace(c) && c != '.' && c != '[' && c != ']' && c != '\''
  }

  predicate PlainName(x: string)
  {
    forall i :: 0 <= i < |x| ==> NameChar(x[i])
  }

  /** `[2:-2]` drops the two braces on each side. */
  lemma SliceBraces(m: string)
    ensures Slice("{{" + m + "}}", 2, -2) == m
  {
    var u := "{{" + m + "}}";
    assert u[2..|u| - 2] == m;
  }

  /** Inside `{{ ` and ` }}`, the slice and the strip leave a text with no
      white space at its ends as it is. */
  lemma BracedInner(w: string)
    requires w == [] || (!IsSpace(w[0]) && !IsSpace(w[|w| - 1]))
    ensures Strip(Slice("{{ " + w + " }}", 2, -2)) == w
  {
    var m := " " + w + " ";
    assert "{{ " + w + " }}" == "{{" + m + "}}";
    SliceBraces(m);
    StripPadded(w);
  }

  /** Inside `{{ ` and ` }}`, a text with no white space at its ends and no
      dot is taken whole. */
  lemma BareBraced(w: string)
    requires w == [] || (!IsSpace(w[0]) && !IsSpace(w[|w| - 1]))
    requires '.' !in w
    ensures BareName("{{ " + w + " }}") == w
  {
    BracedInner(w);
  }

  /** `{{ x }}` names `x`. */
  lemma UsedPlain(x: string)
    requires PlainName(x)
    ensures ParseUsedVariable("{{ " + x + " }}") == x
  {
    BareBraced(x);
  }

  /** The cut keeps what comes before the first dot. */
  lemma CutAttribute(x: string, a: string)
    requires '.' !in x
    ensures CutAtDot(x + "." + a) == x
  {
    var w := x + "." + a;
    assert w[|x|] == '.';
    var r := CutAtDot(w);
    assert w[..|x|] == x;
  }

  /** `{{ x.a }}`, an attribute or a filter after a dot, names `x`. */
  lemma UsedAttribute(x: string, a: string)
    requires PlainName(x)
    requires forall i :: 0 <= i < |a| ==> !IsSpace(a[i])
    ensures ParseUsedVariable("{{ " + x + "." + a + " }}") == x
  {
    var w := x + "." + a;
    assert "{{ " + x + "." + a + " }}" == "{{ " + w + " }}";
    assert w[|w| - 1] == if a == [] then '.' else a[|a| - 1];
    assert w[0] == if x == [] then '.' else x[0];
    BracedInner(w);
    CutAttribute(x, a);
    assert BareName("{{ " + w + " }}") == x;
  }

  /** The subscripted use, braces and spaces removed. */
  lemma SubscriptBare(x: string, k: string)
    requires PlainName(x) && PlainName(k)
    ensures BareName("{{ " + x + "['" + k + "'] }}") == x + "['" + k + "']"
  {
    var w := x + "['" + k + "']";
    assert "{{ " + x + "['" + k + "'] }}" == "{{ " + w + " }}";
    assert w[|w| - 1] == ']';
    assert w[0] == if x == [] then '[' else x[0];
    assert '.' !in w;
    BareBraced(w);
  }

  /** `.replace("[", ":")` on it. */
  lemma SubscriptReplace(x: string, k: string)
    requires PlainName(x) && PlainName(k)
    ensures ReplaceChar(x + "['" + k + "']", '[', ':') == x + ":'" + k + "']"
  {
    var w := x + "['" + k + "']";
    var w1 := x + ":'" + k + "']";
    var r := ReplaceChar(w, '[', ':');
    forall i | 0 <= i < |w|
      ensures r[i] == w1[i]
    {
      if i < |x| {
        assert w[i] == x[i] == w1[i];
      } else if i == |x| {
        assert w[i] == '[';
      } else if i == |x| + 1 {
        assert w[i] == '\'' == w1[i];
      } else if i < |x| + 2 + |k| {
        assert w[i] == k[i - |x| - 2] == w1[i];
      } else {
        assert w[i] == w1[i];
      }
    }
  }

  /** `.replace("]", "").replace("\'", "")` on that. */
  lemma SubscriptRemove(x: string, k: string)
    requires PlainName(x) && PlainName(k)
    ensures RemoveChar(RemoveChar(x + ":'" + k + "']", ']'), '\'') == x + ":" + k
  {
    var b := x + ":";
    var a := b + "'" + k + "'";
    assert x + ":'" + k + "']" == a + "]";
    assert RemoveChar("]", ']') == [] && RemoveChar("'", '\'') == [];
    RemoveCharAppend(a, "]", ']');
    RemoveCharAbsent(a, ']');
    assert RemoveChar(a + "]", ']') == a;
    RemoveCharAppend(b + "'" + k, "'", '\'');
    RemoveCharAppend(b + "'", k, '\'');
    RemoveCharAppend(b, "'", '\'');
    RemoveCharAbsent(b, '\'');
    RemoveCharAbsent(k, '\'');
    assert RemoveChar(b + "'", '\'') == b;
    assert RemoveChar(b + "'" + k, '\'') == b + k;
    assert RemoveChar(a, '\'') == b + k;
  }

  /** `{{ x['k'] }}`, a subscript, names the path `x:k`. */
  lemma UsedSubscript(x: string, k: string)
    requires PlainName(x) && PlainName(k)
    ensures ParseUsedVariable("{{ " + x + "['" + k + "'] }}") == x + ":" + k
  {
    var w := x + "['" + k + "']";
    SubscriptBare(x, k);
    FindChar(w, '[');
    assert w[|x|] == '[';
    SubscriptReplace(x, k);
    SubscriptRemove(x, k);
  }

  /** `{{ a['b'] }}` names `a:b`. */
  lemma SubscriptExample()
    ensures ParseUsedVariable("{{ a['b'] }}") == "a:b"
  {
    assert "{{ " + "a" + "['" + "b" + "'] }}" == "{{ a['b'] }}";
    assert PlainName("a") && PlainName("b");
    UsedSubscript("a", "b");
  }

  /** The entry `scan_variables` records for a name used in a task: filed
      under that name, required, with no default, and the placeholders of the
      other fields. */
  function UsedEntry(name: string): (v: Varible)
    ensures v.name == name && v.required == "Yes" && v.default == "-"
    ensures v.description == "Please fill the description." && v.value == "-"
    ensures v.example == "Please fill the example."
  {
    Varible(name, "Yes", "-")
  }

  /** One pass of the loop of `scan_variables`. */
  function ScanStep(m: string, t: VarMap, registered: seq<string>): VarMap
  {
    var name := ParseUsedVariable(m);
    if name != "" && name !in registered && name !in t then t[name := UsedEntry(name)] else t
  }

  /** One pass enters the parsed name of `m` exactly when it is non-empty,
      unregistered and new, as a used variable; nothing else changes. */
  lemma ScanStepEffect(m: string, t: VarMap, registered: seq<string>)
    ensures var r := ScanStep(m, t, registered);
      && (forall k :: k in t ==> k in r && r[k] == t[k])
      && (forall k :: k in r && k !in t ==> k == ParseUsedVariable(m) && r[k] == UsedEntry(k))
      && (ParseUsedVariable(m) !in t ==>
            (ParseUsedVariable(m) in r <==> ParseUsedVariable(m) != "" && ParseUsedVariable(m) !in registered))
  {
  }

  /** The loop of `scan_variables` over the matches `ms`, against the
      registered names `registered`. Existing entries are never touched, and
      what is added is non-empty, unregistered, required with default "-". */
  function ScanMatches(ms: seq<string>, t: VarMap, registered: seq<string>): (r: VarMap)
    decreases |ms|
    ensures forall k :: k in t ==> k in r && r[k] == t[k]
    ensures forall k :: k in r && k !in t ==> k != "" && k !in registered && r[k] == UsedEntry(k)
    ensures ms == [] ==> r == t
  {
    if ms == [] then t else ScanMatches(ms[1..], ScanStep(ms[0], t, registered), registered)
  }

  lemma ScanMatchesUnfold(ms: seq<string>, t: VarMap, registered: seq<string>)
    requires ms != []
    ensures ScanMatches(ms, t, registered) == ScanMatches(ms[1..], ScanStep(ms[0], t, registered), registered)
  {
  }

  /** Every name `ScanMatches` adds comes from one of the matches. */
  lemma {:induction false} ScanMatchesSource(ms: seq<string>, t: VarMap, registered: seq<string>, k: string)
    requires k in ScanMatches(ms, t, registered) && k !in t
    ensures exists i :: 0 <= i < |ms| && ParseUsedVariable(ms[i]) == k
  {
    if ms != [] {
      var t' := ScanStep(ms[0], t, registered);
      if k in t' {
        assert ParseUsedVariable(ms[0]) == k;
      } else {
        ScanMatchesSource(ms[1..], t', registered, k);
        var i :| 0 <= i < |ms[1..]| && ParseUsedVariable(ms[1..][i]) == k;
        assert ms[i + 1] == ms[1..][i];
      }
    }
  }

  /** Conversely every non-empty, unregistered name of a match ends up in the
      table, as the entry that was there or as a new required one. */
  lemma {:induction false} ScanMatchesComplete(ms: seq<string>, t: VarMap, registered: seq<string>, i: nat)
    requires i < |ms|
    requires ParseUsedVariable(ms[i]) != "" && ParseUsedVariable(ms[i]) !in registered
    ensures ParseUsedVariable(ms[i]) in ScanMatches(ms, t, registered)
  {
    var t' := ScanStep(ms[0], t, registered);
    if i > 0 {
      assert ms[1..][i - 1] == ms[i];
      ScanMatchesComplete(ms[1..], t', registered, i - 1);
    }
  }

  /** What `scan_variables(line, table, registered_vars)` leaves in the table. */
  function ScanLine(line: string, t: VarMap, registered: seq<string>): VarMap
  {
    ScanMatches(FindAll(line), t, registered)
  }

  /** A name is new in the scanned table exactly when it is the non-empty,
      unregistered parsed name of one of the line's matches and was not there. */
  lemma ScanLineEffect(line: string, t: VarMap, registered: seq<string>, k: string)
    requires k !in t
    ensures k in ScanLine(line, t, registered) <==>
      k != "" && k !in registered && exists i :: 0 <= i < |FindAll(line)| && ParseUsedVariable(FindAll(line)[i]) == k
  {
    var ms := FindAll(line);
    if k in ScanLine(line, t, registered) {
      ScanMatchesSource(ms, t, registered, k);
    }
    if k != "" && k !in registered && exists i :: 0 <= i < |ms| && ParseUsedVariable(ms[i]) == k {
      var i :| 0 <= i < |ms| && ParseUsedVariable(ms[i]) == k;
      ScanMatchesComplete(ms, t, registered, i);
    }
  }

  /** Scanning keeps every entry filed under its own name. */
  lemma ScanKeepsNames(line: string, t: VarMap, registered: seq<string>)
    requires NamedByKey(t)
    ensures NamedByKey(ScanLine(line, t, registered))
  {
  }

  /** `scan_variables`: adds to `table` the variables `line` uses. */
  method ScanVariables(line: string, table: VarTable, registered: seq<string>)
    modifies table
    ensures table.entries == ScanLine(line, old(table.entries), registered)
  {
    var matches := FindAll(line);
    if matches != [] {
      var i := 0;
      while i < |matches|
        invariant 0 <= i <= |matches|
        invariant ScanMatches(matches, old(table.entries), registered)
          == ScanMatches(matches[i..], table.entries, registered)
      {
        ScanMatchesUnfold(matches[i..], table.entries, registered);
        assert matches[i..][1..] == matches[i + 1..];
        var clean := ParseUsedVariable(matches[i]);
        if clean != "" && clean !in registered && clean !in table.entries {
          table.entries := table.entries[clean := UsedEntry(clean)];
        }
        assert ScanMatches(matches[i + 1..], table.entries, registered)
          == ScanMatches(matches, old(table.entries), registered);
        i := i + 1;
      }
    }
  }
}
