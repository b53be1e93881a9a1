/** The Rust enum visualizer of the first adapter generation: the variant
    names read from the engine's type definition (one `Name = 0nValue` line
    per variant), the name shown for a value, and the fields of the active
    variant, picked out by counting `RUST$ENUM$` sentinel fields. */
module RustEnum {
  import opened Base
  import opened Text
  import opened StringExtensions
  import opened TypedMemory
  import opened Visualization

  // ---------------------------------------------------------------------
  // Variant names

  /** One line of the definition read as (value, name). The name is the
      trimmed text before the first `=`. The value is the text after it with
      every `0n` removed, trimmed and parsed as a 32-bit integer. A line
      without `=` makes `Substring(0, -1)` throw. */
  function ParseEnumLine(line: string): (r: Result<(int, string)>)
    ensures IndexOfChar(line, '=') == NotFound ==> r == Err(ArgumentOutOfRange("length"))
    ensures r.Ok? ==> Int32Min <= r.value.0 <= Int32Max && '=' !in r.value.1
  {
    var eq := IndexOfChar(line, '=');
    if eq == NotFound then Err(ArgumentOutOfRange("length"))
    else
      match ParseInt32(ValueText(line, eq))
      case Err(f) => Err(f)
      case Ok(v) => Ok((v, NameText(line, eq)))
  }

  /** The trimmed text before the first `=`. */
  function NameText(line: string, eq: nat): (name: string)
    requires eq == IndexOfChar(line, '=')
    ensures '=' !in name
  {
    TrimExcludes(line[..eq], '=');
    Trim(line[..eq])
  }

  /** The text after the first `=`, with every `0n` removed, trimmed. */
  function ValueText(line: string, eq: nat): string
    requires eq < |line|
  {
    Trim(ReplacedFrom(line[eq + 1..], "0n", "", Ordinal, 0))
  }

  /** The map built from the parsed lines in order: the first line that
      failed to parse, or whose value is already a key (`Dictionary.Add`),
      stops it. */
  function Collect(parsed: seq<Result<(int, string)>>): (r: Result<map<int, string>>)
    decreases |parsed|
  {
    if |parsed| == 0 then Ok(map[])
    else
      match Collect(parsed[..|parsed| - 1])
      case Err(f) => Err(f)
      case Ok(names) =>
        match parsed[|parsed| - 1]
        case Err(f) => Err(f)
        case Ok(entry) => if entry.0 in names then Err(Argument("key")) else Ok(names[entry.0 := entry.1])
  }

  /** Every line read as (value, name). */
  function ParsedLines(lines: seq<string>): (parsed: seq<Result<(int, string)>>)
    ensures |parsed| == |lines| && forall i :: 0 <= i < |lines| ==> parsed[i] == ParseEnumLine(lines[i])
  {
    seq(|lines|, i requires 0 <= i < |lines| => ParseEnumLine(lines[i]))
  }

  /** `ReadEnumNames`: the definition text split into its non-empty lines,
      each read in turn into the map. */
  function EnumNames(definition: string): Result<map<int, string>> {
    Collect(ParsedLines(SplitNonEmpty(definition, '\n')))
  }

  /** Every line parsed. */
  predicate AllParsed(parsed: seq<Result<(int, string)>>) {
    forall i :: 0 <= i < |parsed| ==> parsed[i].Ok?
  }

  /** No two lines carry the same value. */
  predicate DistinctValues(parsed: seq<Result<(int, string)>>)
    requires AllParsed(parsed)
  {
    forall i, j :: 0 <= i < j < |parsed| ==> parsed[i].value.0 != parsed[j].value.0
  }

  /** The map is built exactly when every line parsed and no value repeats. */
  lemma {:induction false} CollectOk(parsed: seq<Result<(int, string)>>)
    ensures Collect(parsed).Ok? <==> AllParsed(parsed) && DistinctValues(parsed)
    decreases |parsed|
  {
    if |parsed| > 0 {
      var init := parsed[..|parsed| - 1];
      CollectOk(init);
      assert forall i :: 0 <= i < |init| ==> init[i] == parsed[i];
      if Collect(init).Ok? && parsed[|parsed| - 1].Ok? {
        CollectHas(init);
        CollectOnly(init);
      }
    }
  }

  /** A built map sends each line's value to that line's name. */
  lemma {:induction false} CollectHas(parsed: seq<Result<(int, string)>>)
    requires Collect(parsed).Ok?
    ensures forall i :: 0 <= i < |parsed| ==>
      parsed[i].Ok? && parsed[i].value.0 in Collect(parsed).value
      && Collect(parsed).value[parsed[i].value.0] == parsed[i].value.1
    decreases |parsed|
  {
    if |parsed| > 0 {
      var init := parsed[..|parsed| - 1];
      CollectHas(init);
      assert forall i :: 0 <= i < |init| ==> init[i] == parsed[i];
    }
  }

  /** A built map holds no key that no line carries. */
  lemma {:induction false} CollectOnly(parsed: seq<Result<(int, string)>>)
    requires Collect(parsed).Ok?
    ensures forall k :: k in Collect(parsed).value ==>
      exists i :: 0 <= i < |parsed| && parsed[i].Ok? && parsed[i].value.0 == k
    decreases |parsed|
  {
    if |parsed| > 0 {
      var init := parsed[..|parsed| - 1];
      CollectOnly(init);
      assert forall i :: 0 <= i < |init| ==> init[i] == parsed[i];
    }
  }

  /** Once a prefix of the lines has failed, the whole map fails the same way. */
  lemma {:induction false} CollectStops(parsed: seq<Result<(int, string)>>, i: nat)
    requires i <= |parsed| && Collect(parsed[..i]).Err?
    ensures Collect(parsed) == Collect(parsed[..i])
    decreases |parsed| - i
  {
    if i < |parsed| {
      assert parsed[..i + 1][..i] == parsed[..i];
      CollectStops(parsed, i + 1);
    } else {
      assert parsed[..i] == parsed;
    }
  }

  /** One more line either stops the map or adds its entry. */
  lemma CollectStep(parsed: seq<Result<(int, string)>>, i: nat)
    requires i < |parsed| && Collect(parsed[..i]).Ok?
    ensures Collect(parsed[..i + 1]) ==
      match parsed[i]
      case Err(f) => Err(f)
      case Ok(entry) =>
        var names := Collect(parsed[..i]).value;
        if entry.0 in names then Err(Argument("key")) else Ok(names[entry.0 := entry.1])
  {
    assert parsed[..i + 1][..i] == parsed[..i];
  }

  /** `ReadEnumNames`: the loop that adds each line's (value, name) to the
      dictionary, throwing at the first malformed line or repeated value. */
  method ReadEnumNames(definition: string) returns (r: Result<map<int, string>>)
    ensures r == EnumNames(definition)
  {
    var lines := SplitNonEmpty(definition, '\n');
    ghost var parsed := ParsedLines(lines);
    var result := map[];
    var i := 0;
    while i < |lines|
      invariant 0 <= i <= |lines|
      invariant Collect(parsed[..i]) == Ok(result)
    {
      var entry := ParseEnumLine(lines[i]);
      assert entry == parsed[i];
      CollectStep(parsed, i);
      if entry.Err? {
        CollectStops(parsed, i + 1);
        return Err(entry.fault);
      }
      if entry.value.0 in result {
        CollectStops(parsed, i + 1);
        return Err(Argument("key"));
      }
      result := result[entry.value.0 := entry.value.1];
      i := i + 1;
    }
    assert parsed[..i] == parsed;
    r := Ok(result);
  }

  /** The line the engine prints for variant `name` with value `v`. */
  function EnumLine(name: string, v: int): string {
    name + " = 0n" + IntToString(v)
  }

  /** A variant name as the engine prints it: no `=`, no line break, and no
      white space at either end. */
  predicate IsVariantName(name: string) {
    |name| > 0 && !IsWhiteSpace(name[0]) && !IsWhiteSpace(name[|name| - 1]) && '=' !in name && '\n' !in name
  }

  /** `0n` followed by digits loses exactly the `0n` when replaced by nothing. */
  lemma MarkerRemoved(digits: string)
    requires forall i :: 0 <= i < |digits| ==> IsDigit(digits[i]) || digits[i] == '-'
    ensures ReplacedFrom(" 0n" + digits, "0n", "", Ordinal, 0) == " " + digits
  {
    var s := " 0n" + digits;
    assert s[0] == ' ' && s[1] == '0' && s[2] == 'n';
    MarkerAtOne(s);
    forall j | 3 <= j < |s|
      ensures s[j] != 'n'
    {
      assert s[j] == digits[j - 3];
    }
    NoMarkerFrom(s, 3);
    ReplacedStep(s, "0n", "", Ordinal, 0, 1);
    NoOccurrenceUnchanged(s, "0n", "", Ordinal, 3);
    assert s[0..1] == " " && s[3..] == digits;
    calc {
      ReplacedFrom(s, "0n", "", Ordinal, 0);
      s[0..1] + "" + ReplacedFrom(s, "0n", "", Ordinal, 3);
      s[0..1] + "" + s[3..];
      { DropEmpty(s[0..1], s[3..]); }
      " " + digits;
    }
  }

  lemma DropEmpty(a: string, b: string)
    ensures a + "" + b == a + b
  {
    assert a + "" == a;
  }

  lemma MarkerAtOne(s: string)
    requires |s| >= 3 && s[0] == ' ' && s[1] == '0' && s[2] == 'n'
    ensures IndexOf(s, "0n", 0, Ordinal) == 1
  {
    assert !MatchesAt(s, 0, "0n", Ordinal) by { assert !CharEquals(s[0], '0', Ordinal); }
    assert MatchesAt(s, 1, "0n", Ordinal) by {
      assert MatchesFrom(s, 1, "0n", 2, Ordinal);
      assert MatchesFrom(s, 1, "0n", 1, Ordinal);
    }
  }

  lemma NoMarkerFrom(s: string, from: nat)
    requires from <= |s| && forall j :: from <= j < |s| ==> s[j] != 'n'
    ensures forall i :: from <= i <= |s| ==> !MatchesAt(s, i, "0n", Ordinal)
  {
    forall i | from <= i <= |s|
      ensures !MatchesAt(s, i, "0n", Ordinal)
    {
      if i + 2 <= |s| {
        assert !CharEquals(s[i + 1], 'n', Ordinal);
      }
    }
  }

  /** A printed line reads back as its own value and name. */
  lemma ParseEnumLineOf(name: string, v: int)
    requires IsVariantName(name) && Int32Min <= v <= Int32Max
    ensures ParseEnumLine(EnumLine(name, v)) == Ok((v, name))
  {
    var line := EnumLine(name, v);
    NameOfLine(name, v, line);
    ValueOfLine(name, v, line);
    ParseInt32RoundTrip(v);
    LineFromParts(line, |name| + 1, name, v);
  }

  lemma LineFromParts(line: string, eq: nat, name: string, v: int)
    requires eq < |line| && IndexOfChar(line, '=') == eq
    requires NameText(line, eq) == name && ParseInt32(ValueText(line, eq)) == Ok(v)
    ensures ParseEnumLine(line) == Ok((v, name))
  {
  }

  lemma NameOfLine(name: string, v: int, line: string)
    requires IsVariantName(name) && line == EnumLine(name, v)
    ensures |name| + 1 < |line| && IndexOfChar(line, '=') == |name| + 1
    ensures NameText(line, |name| + 1) == name
  {
    var rest := "= 0n" + IntToString(v);
    assert line == name + " " + rest;
    EqualsAfterName(name, rest, line);
    NameBeforeEquals(name, rest, line);
  }

  lemma EqualsAfterName(name: string, rest: string, line: string)
    requires '=' !in name && |rest| > 0 && rest[0] == '=' && line == name + " " + rest
    ensures |name| + 1 < |line| && IndexOfChar(line, '=') == |name| + 1
  {
    assert line[|name| + 1] == '=';
    assert forall j :: 0 <= j < |name| ==> line[j] == name[j];
    IndexOfCharIs(line, '=', |name| + 1);
  }

  lemma NameBeforeEquals(name: string, rest: string, line: string)
    requires IsVariantName(name) && |rest| > 0 && line == name + " " + rest
    requires IndexOfChar(line, '=') == |name| + 1
    ensures NameText(line, |name| + 1) == name
  {
    assert line[..|name| + 1] == "" + name + " ";
    TrimPadded("", name, " ");
  }

  lemma ValueOfLine(name: string, v: int, line: string)
    requires line == EnumLine(name, v) && |name| + 1 < |line|
    ensures ValueText(line, |name| + 1) == IntToString(v)
  {
    var digits := IntToString(v);
    assert line[|name| + 2..] == " 0n" + digits;
    MarkerRemoved(digits);
    assert " " + digits == " " + digits + "";
    TrimPadded(" ", digits, "");
  }

  /** The definition text the engine prints for the given variants. */
  function EnumDefinition(names: seq<string>, values: seq<int>): string
    requires |names| == |values|
  {
    Join(seq(|names|, i requires 0 <= i < |names| => EnumLine(names[i], values[i])), '\n')
  }

  /** Reading the names back from a printed definition gives every variant
      its own name, and no other value a name. */
  lemma EnumNamesRoundTrip(names: seq<string>, values: seq<int>)
    requires |names| == |values|
    requires forall i :: 0 <= i < |names| ==> IsVariantName(names[i]) && Int32Min <= values[i] <= Int32Max
    requires forall i, j :: 0 <= i < j < |values| ==> values[i] != values[j]
    ensures EnumNames(EnumDefinition(names, values)).Ok?
    ensures forall i :: 0 <= i < |names| ==>
      values[i] in EnumNames(EnumDefinition(names, values)).value
      && EnumNames(EnumDefinition(names, values)).value[values[i]] == names[i]
    ensures forall k :: k in EnumNames(EnumDefinition(names, values)).value ==> k in values
  {
    DefinitionParses(names, values);
    var parsed := Variants(names, values);
    CollectOk(parsed);
    CollectHas(parsed);
    CollectOnly(parsed);
  }

  /** Each variant as the line parser reads it. */
  function Variants(names: seq<string>, values: seq<int>): (parsed: seq<Result<(int, string)>>)
    requires |names| == |values|
    ensures |parsed| == |names| && forall i :: 0 <= i < |names| ==> parsed[i] == Ok((values[i], names[i]))
  {
    seq(|names|, i requires 0 <= i < |names| => Ok((values[i], names[i])))
  }

  /** The printed definition splits into one line per variant, each of which
      reads back as that variant. */
  lemma DefinitionParses(names: seq<string>, values: seq<int>)
    requires |names| == |values|
    requires forall i :: 0 <= i < |names| ==> IsVariantName(names[i]) && Int32Min <= values[i] <= Int32Max
    ensures ParsedLines(SplitNonEmpty(EnumDefinition(names, values), '\n')) == Variants(names, values)
  {
    var lines := seq(|names|, i requires 0 <= i < |names| => EnumLine(names[i], values[i]));
    forall i | 0 <= i < |lines|
      ensures |lines[i]| > 0 && '\n' !in lines[i]
    {
      LineWithoutBreak(names[i], values[i]);
    }
    SplitJoin(lines, '\n');
    forall i | 0 <= i < |lines|
      ensures ParseEnumLine(lines[i]) == Ok((values[i], names[i]))
    {
      ParseEnumLineOf(names[i], values[i]);
    }
  }

  lemma LineWithoutBreak(name: string, v: int)
    requires IsVariantName(name)
    ensures |EnumLine(name, v)| > 0 && '\n' !in EnumLine(name, v)
  {
    var line := EnumLine(name, v);
    var digits := IntToString(v);
    assert forall j :: |name| + 5 <= j < |line| ==> line[j] == digits[j - |name| - 5];
  }

  // ---------------------------------------------------------------------
  // The value shown

  /** A field whose key starts with the `RUST$ENUM$` sentinel, ignoring case. */
  predicate IsSentinel(key: string) {
    StartsWith(key, EnumSentinel, OrdinalIgnoreCase)
  }

  /** `DoCanHandle`: some field name starts with either enum marker. */
  function EnumCanHandle(h: RequestHelper, meta: Meta): (r: bool)
    ensures EncodedEnumCanHandle(h, meta) ==> r
    ensures var names := h.symbols.fieldNames(meta.entry);
      r <==> exists i :: (0 <= i < |names| &&
        (Folded(EnumSentinel) <= Folded(names[i]) || Folded(EncodedEnumPrefix) <= Folded(names[i])))
  {
    var names := h.symbols.fieldNames(meta.entry);
    AnyStartsWithFolded(names, EnumSentinel);
    AnyStartsWithFolded(names, EncodedEnumPrefix);
    AnyStartsWith(names, EnumSentinel) || AnyStartsWith(names, EncodedEnumPrefix)
  }

  /** The variant name of `DoHandle`: after the last `$` of an encoded first
      field's key, otherwise the name the definition gives the discriminant,
      or `<Unknown>` when it gives none. Reading the variable (whose first
      field must exist), the names and the discriminant may each throw. */
  function VariantName(h: RequestHelper, meta: Meta): (r: Result<string>)
    ensures !ReadFinishes(h, meta.entry) ==> r == Err(StackOverflow)
    ensures ReadFinishes(h, meta.entry) && |FieldEntries(h, meta.entry)| == 0 ==> r == Err(InvalidOperation)
    ensures r.Ok? && StartsWith(FieldEntries(h, meta.entry)[0].0, EncodedEnumPrefix, OrdinalIgnoreCase) ==>
      var key := FieldEntries(h, meta.entry)[0].0;
      && '$' !in r.value && |r.value| < |key|
      && key[|key| - |r.value| - 1] == '$' && r.value == key[|key| - |r.value|..]
  {
    match ReadFields(h, meta.entry)
    case Err(f) => Err(f)
    case Ok(fields) =>
      match FirstField(fields)
      case Err(f) => Err(f)
      case Ok(first) =>
        if StartsWith(first.0, EncodedEnumPrefix, OrdinalIgnoreCase) then
          assert CharEquals(first.0[..|EncodedEnumPrefix|][4], EncodedEnumPrefix[4], OrdinalIgnoreCase);
          assert first.0[4] == '$';
          Ok(AfterLast(first.0, '$'))
        else
          match EnumNames(h.advanced.typeDefinitionText(first.1))
          case Err(f) => Err(f)
          case Ok(names) =>
            match Discriminant(h, meta.entry)
            case Err(f) => Err(f)
            case Ok(v) => Ok(if v in names then names[v] else UnknownValue)
  }

  /** `DoHandle`: `Type::Variant`, always with children. */
  function EnumHandle(h: RequestHelper, meta: Meta): (r: Result<Shown>)
    ensures r.Ok? <==> VariantName(h, meta).Ok?
    ensures r.Ok? ==> r.value.hasChildren && r.value.value == Qualified(meta.typeName, VariantName(h, meta).value)
  {
    match VariantName(h, meta)
    case Err(f) => Err(f)
    case Ok(name) => Ok(Shown(Qualified(meta.typeName, name), true))
  }

  /** A value whose first field is not encoded, whose type definition prints
      the given variants and whose discriminant byte is `values[i]` shows as
      `Type::names[i]`. */
  lemma EnumHandleOf(h: RequestHelper, meta: Meta, names: seq<string>, values: seq<int>, i: nat)
    requires |names| == |values| && i < |values|
    requires forall k :: 0 <= k < |names| ==> IsVariantName(names[k]) && Int32Min <= values[k] <= Int32Max
    requires forall k, j :: 0 <= k < j < |values| ==> values[k] != values[j]
    requires ReadFinishes(h, meta.entry) && |FieldEntries(h, meta.entry)| > 0
    requires !StartsWith(FieldEntries(h, meta.entry)[0].0, EncodedEnumPrefix, OrdinalIgnoreCase)
    requires h.advanced.typeDefinitionText(FieldEntries(h, meta.entry)[0].1) == EnumDefinition(names, values)
    requires h.spaces.readable(meta.entry.offset, 1) && h.spaces.memory(meta.entry.offset) as int == values[i]
    ensures EnumHandle(h, meta) == Ok(Shown(Qualified(meta.typeName, names[i]), true))
  {
    EnumNamesRoundTrip(names, values);
  }

  /** A discriminant the definition does not name shows as `Type::<Unknown>`. */
  lemma EnumHandleUnknown(h: RequestHelper, meta: Meta, names: seq<string>, values: seq<int>)
    requires |names| == |values|
    requires forall k :: 0 <= k < |names| ==> IsVariantName(names[k]) && Int32Min <= values[k] <= Int32Max
    requires forall k, j :: 0 <= k < j < |values| ==> values[k] != values[j]
    requires ReadFinishes(h, meta.entry) && |FieldEntries(h, meta.entry)| > 0
    requires !StartsWith(FieldEntries(h, meta.entry)[0].0, EncodedEnumPrefix, OrdinalIgnoreCase)
    requires h.advanced.typeDefinitionText(FieldEntries(h, meta.entry)[0].1) == EnumDefinition(names, values)
    requires h.spaces.readable(meta.entry.offset, 1) && h.spaces.memory(meta.entry.offset) as int !in values
    ensures EnumHandle(h, meta) == Ok(Shown(Qualified(meta.typeName, UnknownValue), true))
  {
    EnumNamesRoundTrip(names, values);
  }

  /** A recursive enum (`enum List { Cons(i32, Box<List>), Nil }`) is never
      shown: reading its field tree overflows the stack, before either the
      names or the discriminant are read. */
  lemma RecursiveEnumOverflows(h: RequestHelper, meta: Meta, i: nat)
    requires i < |h.symbols.fieldNames(Operand(h, meta.entry))|
    requires Operand(h, h.advanced.getField(Operand(h, meta.entry), h.symbols.fieldNames(Operand(h, meta.entry))[i])) == Operand(h, meta.entry)
    ensures EnumHandle(h, meta) == Err(StackOverflow)
  {
    SelfContainingNeverRead(h, meta.entry, i, StackDepth);
  }

  // ---------------------------------------------------------------------
  // The fields of the active variant

  /** The number of sentinel fields among `entries`. */
  function Sentinels(entries: seq<(string, TypedData)>): (n: nat)
    ensures n <= |entries|
  {
    if |entries| == 0 then 0
    else (if IsSentinel(entries[0].0) then 1 else 0) + Sentinels(entries[1..])
  }

  /** The fields kept by the scan of `DoGetChildren` over `entries`, when it
      starts with `counter` and keeps the fields seen while the counter equals
      the discriminant `d`; each sentinel field raises the counter and is
      skipped. */
  function Kept(entries: seq<(string, TypedData)>, counter: int, d: int): (kept: seq<(string, TypedData)>)
    decreases |entries|
  {
    if |entries| == 0 then []
    else if IsSentinel(entries[0].0) then Kept(entries[1..], counter + 1, d)
    else (if counter == d then [entries[0]] else []) + Kept(entries[1..], counter, d)
  }

  /** The scan keeps some of the fields it is given, never a sentinel. */
  lemma {:induction false} KeptFields(entries: seq<(string, TypedData)>, counter: int, d: int)
    ensures |Kept(entries, counter, d)| <= |entries|
    ensures forall k :: 0 <= k < |Kept(entries, counter, d)| ==>
      Kept(entries, counter, d)[k] in entries && !IsSentinel(Kept(entries, counter, d)[k].0)
    decreases |entries|
  {
    if |entries| > 0 {
      var next := if IsSentinel(entries[0].0) then counter + 1 else counter;
      KeptFields(entries[1..], next, d);
      var rest := Kept(entries[1..], next, d);
      assert forall k :: 0 <= k < |rest| ==> rest[k] in entries by {
        forall k | 0 <= k < |rest| ensures rest[k] in entries {
          assert rest[k] in entries[1..];
        }
      }
    }
  }

  /** The fields of variant `d`: the scan starts with the counter at -1. */
  function VariantFields(entries: seq<(string, TypedData)>, d: int): seq<(string, TypedData)> {
    Kept(entries, -1, d)
  }

  /** The scan over two runs of fields keeps what it keeps over the first,
      then what it keeps over the second with the counter the first left. */
  lemma {:induction false} KeptAppend(a: seq<(string, TypedData)>, b: seq<(string, TypedData)>, counter: int, d: int)
    ensures Kept(a + b, counter, d) == Kept(a, counter, d) + Kept(b, counter + Sentinels(a), d)
    decreases |a|
  {
    if |a| > 0 {
      var next := if IsSentinel(a[0].0) then counter + 1 else counter;
      var head := if !IsSentinel(a[0].0) && counter == d then [a[0]] else [];
      assert (a + b)[0] == a[0];
      assert (a + b)[1..] == a[1..] + b;
      assert Kept(a + b, counter, d) == head + Kept(a[1..] + b, next, d);
      assert Kept(a, counter, d) == head + Kept(a[1..], next, d);
      KeptAppend(a[1..], b, next, d);
      assert next + Sentinels(a[1..]) == counter + Sentinels(a);
    } else {
      assert a + b == b;
    }
  }

  /** While the counter stays below the discriminant nothing is kept. */
  lemma {:induction false} KeptBelow(a: seq<(string, TypedData)>, counter: int, d: int)
    requires counter + Sentinels(a) < d
    ensures Kept(a, counter, d) == []
    decreases |a|
  {
    if |a| > 0 {
      KeptBelow(a[1..], if IsSentinel(a[0].0) then counter + 1 else counter, d);
    }
  }

  /** Once the counter has passed the discriminant nothing is kept. */
  lemma {:induction false} KeptAbove(a: seq<(string, TypedData)>, counter: int, d: int)
    requires counter > d
    ensures Kept(a, counter, d) == []
    decreases |a|
  {
    if |a| > 0 {
      KeptAbove(a[1..], if IsSentinel(a[0].0) then counter + 1 else counter, d);
    }
  }

  /** A run without sentinels, scanned at the discriminant, is kept whole. */
  lemma {:induction false} KeptRun(a: seq<(string, TypedData)>, d: int)
    requires forall k :: 0 <= k < |a| ==> !IsSentinel(a[k].0)
    ensures Kept(a, d, d) == a
    decreases |a|
  {
    if |a| > 0 {
      KeptRun(a[1..], d);
      assert [a[0]] + a[1..] == a;
    }
  }

  /** The fields of variant `d` are those after the sentinel preceded by
      exactly `d` others, up to the next sentinel or the end. */
  lemma VariantFieldsBetween(before: seq<(string, TypedData)>, sentinel: (string, TypedData),
                             run: seq<(string, TypedData)>, after: seq<(string, TypedData)>, d: int)
    requires Sentinels(before) == d && IsSentinel(sentinel.0)
    requires forall k :: 0 <= k < |run| ==> !IsSentinel(run[k].0)
    requires |after| > 0 ==> IsSentinel(after[0].0)
    ensures VariantFields(before + [sentinel] + run + after, d) == run
  {
    KeptAppend(before + [sentinel] + run, after, -1, d);
    KeptAppend(before + [sentinel], run, -1, d);
    KeptAppend(before, [sentinel], -1, d);
    KeptBelow(before, -1, d);
    assert Kept([sentinel], d - 1, d) == [];
    assert Sentinels([sentinel]) == 1;
    KeptRun(run, d);
    SentinelsAppend(before, [sentinel]);
    SentinelsAppend(before + [sentinel], run);
    SentinelsNone(run);
    if |after| > 0 {
      KeptAbove(after[1..], d + 1, d);
    }
  }

  lemma {:induction false} SentinelsAppend(a: seq<(string, TypedData)>, b: seq<(string, TypedData)>)
    ensures Sentinels(a + b) == Sentinels(a) + Sentinels(b)
    decreases |a|
  {
    if |a| > 0 {
      assert (a + b)[0] == a[0];
      assert (a + b)[1..] == a[1..] + b;
      SentinelsAppend(a[1..], b);
    } else {
      assert a + b == b;
    }
  }

  lemma {:induction false} SentinelsNone(a: seq<(string, TypedData)>)
    requires forall k :: 0 <= k < |a| ==> !IsSentinel(a[k].0)
    ensures Sentinels(a) == 0
    decreases |a|
  {
    if |a| > 0 {
      SentinelsNone(a[1..]);
    }
  }

  /** The first loop of `DoGetChildren`: the counter starts at -1, rises at
      each sentinel field, and a field is kept while it equals `d`. */
  method SelectVariantFields(entries: seq<(string, TypedData)>, d: int) returns (actual: seq<(string, TypedData)>)
    ensures actual == VariantFields(entries, d)
  {
    actual := [];
    var counter := -1;
    var i := 0;
    while i < |entries|
      invariant 0 <= i <= |entries|
      invariant actual + Kept(entries[i..], counter, d) == VariantFields(entries, d)
    {
      assert entries[i..][1..] == entries[i + 1..];
      if IsSentinel(entries[i].0) {
        assert Kept(entries[i..], counter, d) == Kept(entries[i + 1..], counter + 1, d);
        counter := counter + 1;
        i := i + 1;
        continue;
      }
      var head := if counter == d then [entries[i]] else [];
      assert Kept(entries[i..], counter, d) == head + Kept(entries[i + 1..], counter, d);
      assert actual + (head + Kept(entries[i + 1..], counter, d)) == (actual + head) + Kept(entries[i + 1..], counter, d);
      actual := actual + head;
      i := i + 1;
    }
  }

  /** `DoGetChildren`: the fields of the variant the discriminant selects,
      each shown by the registry. Reading the discriminant may throw, and so
      may the registry. */
  function EnumChildren(h: RequestHelper, symbols: SymbolsApi, meta: Meta, reHandle: Meta -> Result<Shown>)
    : (r: Result<seq<(Meta, Shown)>>)
    ensures !ReadFinishes(h, meta.entry) ==> r == Err(StackOverflow)
    ensures ReadFinishes(h, meta.entry) && !h.spaces.readable(meta.entry.offset, 1) ==> r == Err(IndexOutOfRange)
    ensures ReadFinishes(h, meta.entry) && h.spaces.readable(meta.entry.offset, 1) ==>
      r == Resolved(FieldMetas(symbols, VariantFields(FieldEntries(h, meta.entry), h.spaces.memory(meta.entry.offset) as int)), reHandle)
  {
    match ReadFields(h, meta.entry)
    case Err(f) => Err(f)
    case Ok(entries) =>
      match Discriminant(h, meta.entry)
      case Err(f) => Err(f)
      case Ok(d) => Resolved(FieldMetas(symbols, VariantFields(entries, d)), reHandle)
  }

  /** The two loops of `DoGetChildren`: select the variant's fields, then
      show each of them through the registry. */
  method GetEnumChildren(h: RequestHelper, symbols: SymbolsApi, meta: Meta, reHandle: Meta -> Result<Shown>)
    returns (r: Result<seq<(Meta, Shown)>>)
    ensures r == EnumChildren(h, symbols, meta, reHandle)
  {
    var variable := ReadFields(h, meta.entry);
    if variable.Err? {
      return Err(variable.fault);
    }
    var entries := variable.value;
    var enumValue := Discriminant(h, meta.entry);
    if enumValue.Err? {
      return Err(enumValue.fault);
    }
    var actualFields := SelectVariantFields(entries, enumValue.value);
    r := ResolveAll(FieldMetas(symbols, actualFields), reHandle);
  }
}
