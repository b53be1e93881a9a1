/** String helpers of the second adapter generation: replacement under a
    chosen comparison, and `%NAME%` expansion over a table built from the
    machine, user and process environments. */
module StringExtensions {
  import opened Base
  import opened Text

  // ---------------------------------------------------------------------
  // Replace

  /** The text from `from` on with every occurrence of `oldValue` found by a
      left-to-right scan replaced by `newValue`; the scan resumes after each
      occurrence it replaced. */
  function ReplacedFrom(text: string, oldValue: string, newValue: string, cmp: Comparison, from: nat): string
    requires |oldValue| > 0 && from <= |text|
    decreases |text| - from
  {
    var index := IndexOf(text, oldValue, from, cmp);
    if index == NotFound then text[from..]
    else text[from..index] + newValue + ReplacedFrom(text, oldValue, newValue, cmp, index + |oldValue|)
  }

  /** One step of the scan: text up to the next occurrence is copied, the
      occurrence replaced, and the scan resumes after it. */
  lemma ReplacedStep(text: string, oldValue: string, newValue: string, cmp: Comparison, from: nat, index: int)
    requires |oldValue| > 0 && from <= |text|
    requires index == IndexOf(text, oldValue, from, cmp) && index != NotFound
    ensures ReplacedFrom(text, oldValue, newValue, cmp, from)
      == text[from..index] + newValue + ReplacedFrom(text, oldValue, newValue, cmp, index + |oldValue|)
  {
  }

  /** `Replace(text, oldValue, newValue, comparison)`. An empty `oldValue`
      makes the source loop forever, so it is excluded. */
  method Replace(text: string, oldValue: string, newValue: string, cmp: Comparison) returns (r: string)
    requires |oldValue| > 0
    ensures r == ReplacedFrom(text, oldValue, newValue, cmp, 0)
  {
    var sb := "";
    var previousIndex := 0;
    var index := IndexOf(text, oldValue, 0, cmp);
    while index != NotFound
      invariant 0 <= previousIndex <= |text|
      invariant index == IndexOf(text, oldValue, previousIndex, cmp)
      invariant sb + ReplacedFrom(text, oldValue, newValue, cmp, previousIndex) == ReplacedFrom(text, oldValue, newValue, cmp, 0)
      decreases |text| - previousIndex
    {
      ghost var sb0, previousIndex0, index0 := sb, previousIndex, index;
      sb := sb + text[previousIndex..index];
      sb := sb + newValue;
      index := index + |oldValue|;
      previousIndex := index;
      ReplaceLoopStep(text, oldValue, newValue, cmp, previousIndex0, index0, sb0, previousIndex, sb, ReplacedFrom(text, oldValue, newValue, cmp, 0));
      index := IndexOf(text, oldValue, index, cmp);
    }
    r := sb + text[previousIndex..];
  }

  /** The loop of `Replace` keeps its invariant across one replacement. */
  lemma ReplaceLoopStep(text: string, oldValue: string, newValue: string, cmp: Comparison,
                        previousIndex: nat, index: int, sb: string, next: int, sb': string, whole: string)
    requires |oldValue| > 0 && previousIndex <= |text|
    requires index == IndexOf(text, oldValue, previousIndex, cmp) && index != NotFound
    requires sb + ReplacedFrom(text, oldValue, newValue, cmp, previousIndex) == whole
    requires next == index + |oldValue| && sb' == sb + text[previousIndex..index] + newValue
    ensures sb' + ReplacedFrom(text, oldValue, newValue, cmp, next) == whole
  {
    ReplacedStep(text, oldValue, newValue, cmp, previousIndex, index);
    Regroup(sb, ReplacedFrom(text, oldValue, newValue, cmp, previousIndex), whole,
            text[previousIndex..index], newValue, ReplacedFrom(text, oldValue, newValue, cmp, next), sb');
  }

  lemma Regroup(sb: string, part: string, whole: string, b: string, c: string, d: string, sb': string)
    requires sb + part == whole && part == b + c + d && sb' == sb + b + c
    ensures sb' + d == whole
  {
    assert sb + (b + c + d) == sb + b + c + d;
  }

  /** Text with no occurrence left from `from` on is copied unchanged. */
  lemma NoOccurrenceUnchanged(text: string, oldValue: string, newValue: string, cmp: Comparison, from: nat)
    requires |oldValue| > 0 && from <= |text|
    requires forall i :: from <= i <= |text| ==> !MatchesAt(text, i, oldValue, cmp)
    ensures ReplacedFrom(text, oldValue, newValue, cmp, from) == text[from..]
  {
    IndexOfFirst(text, oldValue, from, cmp);
  }

  /** Replacing a value by itself under ordinal comparison changes nothing. */
  lemma {:induction false} ReplaceSelfIdentity(text: string, oldValue: string, from: nat)
    requires |oldValue| > 0 && from <= |text|
    ensures ReplacedFrom(text, oldValue, oldValue, Ordinal, from) == text[from..]
    decreases |text| - from
  {
    var index := IndexOf(text, oldValue, from, Ordinal);
    if index != NotFound {
      var next := index + |oldValue|;
      ReplacedStep(text, oldValue, oldValue, Ordinal, from, index);
      IndexOfFirst(text, oldValue, from, Ordinal);
      OrdinalMatchIsSlice(text, index, oldValue);
      ReplaceSelfIdentity(text, oldValue, next);
      Reassemble(text, from, index, next);
    }
  }

  /** An ordinal match is the pattern itself. */
  lemma OrdinalMatchIsSlice(s: string, i: int, pattern: string)
    requires MatchesAt(s, i, pattern, Ordinal)
    ensures s[i..i + |pattern|] == pattern
  {
    OrdinalMatchFrom(s, i, pattern, 0);
  }

  lemma {:induction false} OrdinalMatchFrom(s: string, i: nat, pattern: string, k: nat)
    requires i + |pattern| <= |s| && k <= |pattern|
    requires MatchesFrom(s, i, pattern, k, Ordinal)
    ensures s[i + k..i + |pattern|] == pattern[k..]
    decreases |pattern| - k
  {
    if k < |pattern| {
      OrdinalMatchFrom(s, i, pattern, k + 1);
      assert s[i + k..i + |pattern|] == [s[i + k]] + s[i + k + 1..i + |pattern|];
      assert pattern[k..] == [pattern[k]] + pattern[k + 1..];
    }
  }

  lemma Reassemble(s: string, a: nat, b: nat, c: nat)
    requires a <= b <= c <= |s|
    ensures s[a..b] + s[b..c] + s[c..] == s[a..]
  {
  }

  /** `count` copies of `delta` added up. */
  function Repeated(count: nat, delta: int): int {
    if count == 0 then 0 else delta + Repeated(count - 1, delta)
  }

  /** How many occurrences the left-to-right scan replaces from `from` on. */
  function Occurrences(text: string, oldValue: string, cmp: Comparison, from: nat): nat
    requires |oldValue| > 0 && from <= |text|
    decreases |text| - from
  {
    var index := IndexOf(text, oldValue, from, cmp);
    if index == NotFound then 0 else 1 + Occurrences(text, oldValue, cmp, index + |oldValue|)
  }

  /** Each replacement trades `|oldValue|` characters for `|newValue|`. */
  lemma {:induction false} ReplacedLength(text: string, oldValue: string, newValue: string, cmp: Comparison, from: nat)
    requires |oldValue| > 0 && from <= |text|
    ensures |ReplacedFrom(text, oldValue, newValue, cmp, from)|
      == |text| - from + Repeated(Occurrences(text, oldValue, cmp, from), |newValue| - |oldValue|)
    decreases |text| - from, 1
  {
    if IndexOf(text, oldValue, from, cmp) != NotFound {
      ReplacedLengthFound(text, oldValue, newValue, cmp, from, IndexOf(text, oldValue, from, cmp));
    }
  }

  lemma {:induction false} ReplacedLengthFound(text: string, oldValue: string, newValue: string, cmp: Comparison, from: nat, index: int)
    requires |oldValue| > 0 && from <= |text|
    requires index == IndexOf(text, oldValue, from, cmp) && index != NotFound
    ensures |ReplacedFrom(text, oldValue, newValue, cmp, from)|
      == |text| - from + Repeated(Occurrences(text, oldValue, cmp, from), |newValue| - |oldValue|)
    decreases |text| - from, 0
  {
    var next := index + |oldValue|;
    ReplacedStep(text, oldValue, newValue, cmp, from, index);
    ReplacedLength(text, oldValue, newValue, cmp, next);
  }

  // ---------------------------------------------------------------------
  // The environment table

  /** A variable as an environment reports it: key and value may be null. */
  type RawVariable = (Option<string>, Option<string>)

  /** `%NAME%`, the text a variable is written as in a path. */
  function Delimited(name: string): (key: string)
    ensures |key| == |name| + 2 && key[0] == '%' && key[|key| - 1] == '%'
  {
    "%" + name + "%"
  }

  /** The entries one environment contributes: variables with a null key or
      value are skipped, the others keyed `%NAME%`; an environment whose read
      throws (`None`) contributes nothing. */
  function Contributed(vars: Option<seq<RawVariable>>): (r: seq<(string, string)>)
    ensures forall i :: 0 <= i < |r| ==> |r[i].0| >= 2 && r[i].0[0] == '%'
    decreases if vars.Some? then |vars.value| else 0
  {
    if vars.None? || |vars.value| == 0 then []
    else
      var rest := Contributed(Some(vars.value[1..]));
      var (key, value) := vars.value[0];
      if key.None? || value.None? then rest else [(Delimited(key.value), value.value)] + rest
  }

  /** `ReadEnvironmentVariablesSafely(target)`. */
  method ReadEnvironmentVariablesSafely(vars: Option<seq<RawVariable>>) returns (r: seq<(string, string)>)
    ensures r == Contributed(vars)
  {
    r := [];
    if vars.None? {
      return;
    }
    var i := |vars.value|;
    while i > 0
      invariant 0 <= i <= |vars.value|
      invariant r == Contributed(Some(vars.value[i..]))
    {
      i := i - 1;
      assert vars.value[i..][1..] == vars.value[i + 1..];
      var (key, value) := vars.value[i];
      if key.Some? && value.Some? {
        r := [(Delimited(key.value), value.value)] + r;
      }
    }
    assert vars.value[0..] == vars.value;
  }

  /** A `Dictionary<string, string>` as its entries in enumeration order: no
      key twice. */
  ghost predicate DistinctKeys(table: seq<(string, string)>) {
    forall i, j :: 0 <= i < j < |table| ==> table[i].0 != table[j].0
  }

  /** `dictionary[key] = value`: an existing key keeps its place and takes the
      new value; a new key goes at the end. */
  function Assign(table: seq<(string, string)>, key: string, value: string): seq<(string, string)> {
    if |table| == 0 then [(key, value)]
    else if table[0].0 == key then [(key, value)] + table[1..]
    else [table[0]] + Assign(table[1..], key, value)
  }

  /** An assignment keeps the keys in place and adds a new key at the end. */
  lemma {:induction false} AssignKeysShape(table: seq<(string, string)>, key: string, value: string)
    ensures Firsts(Assign(table, key, value)) == if key in Firsts(table) then Firsts(table) else Firsts(table) + [key]
    decreases |table|
  {
    var r := Assign(table, key, value);
    if |table| == 0 {
      assert Firsts(r) == [key];
    } else if table[0].0 == key {
      assert Firsts(table)[0] == key;
      assert Firsts(r) == Firsts(table);
    } else {
      AssignKeysShape(table[1..], key, value);
      AssignKeysPastHead(table, key, value);
    }
  }

  /** The step of `AssignKeysShape` past a first entry under another key. */
  lemma AssignKeysPastHead(table: seq<(string, string)>, key: string, value: string)
    requires |table| > 0 && table[0].0 != key
    requires var keys := Firsts(table[1..]);
      Firsts(Assign(table[1..], key, value)) == if key in keys then keys else keys + [key]
    ensures Firsts(Assign(table, key, value)) == if key in Firsts(table) then Firsts(table) else Firsts(table) + [key]
  {
    var head, keys := [table[0].0], Firsts(table[1..]);
    var rest := Assign(table[1..], key, value);
    assert Firsts([table[0]]) == head;
    assert table == [table[0]] + table[1..];
    FirstsAppend([table[0]], table[1..]);
    FirstsAppend([table[0]], rest);
    assert key in head + keys <==> key in keys;
    if key !in keys {
      assert head + (keys + [key]) == (head + keys) + [key];
    }
  }

  /** An assignment leaves every entry under another key where it was. */
  lemma {:induction false} AssignKeepsOthers(table: seq<(string, string)>, key: string, value: string)
    ensures forall i :: 0 <= i < |Assign(table, key, value)| && Assign(table, key, value)[i].0 != key ==>
      i < |table| && Assign(table, key, value)[i] == table[i]
    decreases |table|
  {
    if |table| > 0 && table[0].0 != key {
      var r := Assign(table, key, value);
      var rest := Assign(table[1..], key, value);
      AssignKeepsOthers(table[1..], key, value);
      assert r == [table[0]] + rest;
      forall i | 0 <= i < |r| && r[i].0 != key
        ensures i < |table| && r[i] == table[i]
      {
        if i > 0 {
          assert r[i] == rest[i - 1];
        }
      }
    }
  }

  /** `dictionary[key]` as a lookup that may miss. */
  function Lookup(table: seq<(string, string)>, key: string): (r: Option<string>)
    ensures r.Some? <==> key in Firsts(table)
  {
    if |table| == 0 then None
    else if table[0].0 == key then Some(table[0].1)
    else Lookup(table[1..], key)
  }

  /** After an assignment the key reads back its new value and every other key
      its old one. */
  lemma {:induction false} AssignLookup(table: seq<(string, string)>, key: string, value: string, other: string)
    ensures Lookup(Assign(table, key, value), other) == if other == key then Some(value) else Lookup(table, other)
  {
    if |table| > 0 && table[0].0 != key {
      AssignLookup(table[1..], key, value, other);
      assert Assign(table, key, value)[1..] == Assign(table[1..], key, value);
    } else if |table| > 0 {
      assert ([(key, value)] + table[1..])[1..] == table[1..];
    }
  }

  lemma AssignKeepsDistinct(table: seq<(string, string)>, key: string, value: string)
    requires DistinctKeys(table)
    ensures DistinctKeys(Assign(table, key, value))
  {
    var r := Assign(table, key, value);
    AssignKeysShape(table, key, value);
    AssignKeepsOthers(table, key, value);
    assert forall i :: 0 <= i < |r| ==> r[i].0 == Firsts(r)[i];
    assert forall i :: 0 <= i < |table| ==> table[i].0 == Firsts(table)[i];
  }

  /** The table after `Include(table, pairs)`. */
  function Included(table: seq<(string, string)>, pairs: seq<(string, string)>): seq<(string, string)>
    decreases |pairs|
  {
    if |pairs| == 0 then table else Included(Assign(table, pairs[0].0, pairs[0].1), pairs[1..])
  }

  /** The value the last pair carrying `key` holds, if any pair does. */
  function LastFor(pairs: seq<(string, string)>, key: string): (r: Option<string>)
    ensures r.Some? <==> key in Firsts(pairs)
  {
    if |pairs| == 0 then None
    else
      var later := LastFor(pairs[1..], key);
      if later.Some? then later
      else if pairs[0].0 == key then Some(pairs[0].1)
      else None
  }

  /** Including pairs makes the last pair for a key win; keys no pair carries
      keep their value. */
  lemma {:induction false} IncludedLookup(table: seq<(string, string)>, pairs: seq<(string, string)>, key: string)
    ensures Lookup(Included(table, pairs), key) == if LastFor(pairs, key).Some? then LastFor(pairs, key) else Lookup(table, key)
    decreases |pairs|
  {
    if |pairs| > 0 {
      AssignLookup(table, pairs[0].0, pairs[0].1, key);
      IncludedLookup(Assign(table, pairs[0].0, pairs[0].1), pairs[1..], key);
    }
  }

  /** Including pairs never duplicates a key. */
  lemma {:induction false} IncludedDistinct(table: seq<(string, string)>, pairs: seq<(string, string)>)
    requires DistinctKeys(table)
    ensures DistinctKeys(Included(table, pairs))
    decreases |pairs|
  {
    if |pairs| > 0 {
      AssignKeepsDistinct(table, pairs[0].0, pairs[0].1);
      IncludedDistinct(Assign(table, pairs[0].0, pairs[0].1), pairs[1..]);
    }
  }

  /** `Include`: each pair in turn is stored with the indexer. */
  method Include(table: seq<(string, string)>, pairs: seq<(string, string)>) returns (r: seq<(string, string)>)
    ensures r == Included(table, pairs)
  {
    r := table;
    var i := 0;
    while i < |pairs|
      invariant 0 <= i <= |pairs|
      invariant Included(r, pairs[i..]) == Included(table, pairs)
    {
      assert pairs[i..][1..] == pairs[i + 1..];
      r := Assign(r, pairs[i].0, pairs[i].1);
      i := i + 1;
    }
  }

  /** The table built from the three environments' contributions. */
  function EnvironmentTable(machine: Option<seq<RawVariable>>, user: Option<seq<RawVariable>>, process: Option<seq<RawVariable>>): seq<(string, string)> {
    Included(Included(Included([], Contributed(machine)), Contributed(user)), Contributed(process))
  }

  /** The table read once at start-up: machine variables, then user variables
      overriding them, then process variables overriding both. */
  method ReadEnvironmentTable(machine: Option<seq<RawVariable>>, user: Option<seq<RawVariable>>, process: Option<seq<RawVariable>>)
    returns (table: seq<(string, string)>)
    ensures table == EnvironmentTable(machine, user, process)
  {
    table := [];
    var entries := ReadEnvironmentVariablesSafely(machine);
    table := Include(table, entries);
    entries := ReadEnvironmentVariablesSafely(user);
    table := Include(table, entries);
    entries := ReadEnvironmentVariablesSafely(process);
    table := Include(table, entries);
  }

  /** A process variable overrides a user one, which overrides a machine one. */
  lemma EnvironmentPrecedence(machine: Option<seq<RawVariable>>, user: Option<seq<RawVariable>>, process: Option<seq<RawVariable>>, key: string)
    ensures var table := EnvironmentTable(machine, user, process);
      var p, u, m := LastFor(Contributed(process), key), LastFor(Contributed(user), key), LastFor(Contributed(machine), key);
      Lookup(table, key) == if p.Some? then p else if u.Some? then u else m
  {
    var t1 := Included([], Contributed(machine));
    var t2 := Included(t1, Contributed(user));
    IncludedLookup([], Contributed(machine), key);
    IncludedLookup(t1, Contributed(user), key);
    IncludedLookup(t2, Contributed(process), key);
  }

  /** Every key of the start-up table is `%...%`-shaped. */
  ghost predicate DelimitedKeys(table: seq<(string, string)>) {
    forall i :: 0 <= i < |table| ==> |table[i].0| >= 2 && table[i].0[0] == '%'
  }

  lemma {:induction false} IncludedDelimited(table: seq<(string, string)>, pairs: seq<(string, string)>)
    requires DelimitedKeys(table) && DelimitedKeys(pairs)
    ensures DelimitedKeys(Included(table, pairs))
    decreases |pairs|
  {
    if |pairs| > 0 {
      var t := Assign(table, pairs[0].0, pairs[0].1);
      AssignKeysShape(table, pairs[0].0, pairs[0].1);
      assert forall i :: 0 <= i < |t| ==> t[i].0 == Firsts(t)[i];
      assert forall i :: 0 <= i < |table| ==> table[i].0 == Firsts(table)[i];
      IncludedDelimited(t, pairs[1..]);
    }
  }

  /** The start-up table has unique, `%`-delimited keys. */
  lemma EnvironmentTableWellFormed(machine: Option<seq<RawVariable>>, user: Option<seq<RawVariable>>, process: Option<seq<RawVariable>>)
    ensures DistinctKeys(EnvironmentTable(machine, user, process)) && DelimitedKeys(EnvironmentTable(machine, user, process))
  {
    IncludedDistinct([], Contributed(machine));
    IncludedDelimited([], Contributed(machine));
    var t1 := Included([], Contributed(machine));
    IncludedDistinct(t1, Contributed(user));
    IncludedDelimited(t1, Contributed(user));
    var t2 := Included(t1, Contributed(user));
    IncludedDistinct(t2, Contributed(process));
    IncludedDelimited(t2, Contributed(process));
  }

  // ---------------------------------------------------------------------
  // Expansion

  /** The path after replacing, case-insensitively, each key of `table[from..]`
      by its value, one key after another. */
  function ExpandedFrom(path: string, table: seq<(string, string)>, from: nat): string
    requires DelimitedKeys(table) && from <= |table|
    decreases |table| - from
  {
    if from == |table| then path
    else ExpandedFrom(ReplacedFrom(path, table[from].0, table[from].1, OrdinalIgnoreCase, 0), table, from + 1)
  }

  /** `ReplaceEnvironmentVariables`: a path without `%` is returned as it is;
      any other path has every table key replaced in turn. */
  method ReplaceEnvironmentVariables(path: string, table: seq<(string, string)>) returns (r: string)
    requires DelimitedKeys(table)
    ensures !Contains(path, "%") ==> r == path
    ensures Contains(path, "%") ==> r == ExpandedFrom(path, table, 0)
  {
    if !Contains(path, "%") {
      return path;
    }
    r := path;
    var i := 0;
    while i < |table|
      invariant 0 <= i <= |table|
      invariant ExpandedFrom(r, table, i) == ExpandedFrom(path, table, 0)
    {
      r := Replace(r, table[i].0, table[i].1, OrdinalIgnoreCase);
      i := i + 1;
    }
  }

  /** Without a `%` in the path no key can match, so the early return gives
      the same answer the full expansion would. */
  lemma {:induction false} NoDelimiterNothingToExpand(path: string, table: seq<(string, string)>, from: nat)
    requires DelimitedKeys(table) && from <= |table|
    requires !Contains(path, "%")
    ensures ExpandedFrom(path, table, from) == path
    decreases |table| - from
  {
    if from < |table| {
      var key := table[from].0;
      IndexOfFirst(path, "%", 0, Ordinal);
      forall i | 0 <= i <= |path|
        ensures !MatchesAt(path, i, key, OrdinalIgnoreCase)
      {
        assert !MatchesAt(path, i, "%", Ordinal);
        if i + |key| <= |path| {
          assert !CharEquals(path[i], "%"[0], Ordinal);
          assert !CharEquals(path[i], key[0], OrdinalIgnoreCase);
        }
      }
      NoOccurrenceUnchanged(path, key, table[from].1, OrdinalIgnoreCase, 0);
      assert path[0..] == path;
      NoDelimiterNothingToExpand(path, table, from + 1);
    }
  }
}
