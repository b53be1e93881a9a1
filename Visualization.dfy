/** What the visualizers of both adapter generations share: the metadata of
    a variable, the result of visualizing it, the type-name lookup, quoting,
    `Type::Variant` display text, the cut at the first NUL, the indexed
    elements of an array, and the whole encoded-enum visualizer, whose code
    is the same in both generations. */
module Visualization {
  import opened Base
  import opened Text
  import opened Bytes
  import opened TypedMemory

  /** `VariableMetaData`: the name a value is shown under, its type name and
      the typed value itself. */
  datatype Meta = Meta(name: string, typeName: string, entry: TypedData)

  /** `VisualizationResult`: the display text and whether the value expands. */
  datatype Shown = Shown(value: string, hasChildren: bool)

  /** Field-name prefix that marks a variant boundary of a Rust enum. */
  const EnumSentinel := "RUST$ENUM$"
  /** Field-name prefix of a Rust enum encoded in a nullable pointer. */
  const EncodedEnumPrefix := "RUST$ENCODED$ENUM"

  const UInt64Modulus: nat := 0x1_0000_0000_0000_0000

  /** `new VisualizationResult(value, hasChildren)`: a null text is shown as
      `<Unknown>`. */
  function NewShown(value: Option<string>, hasChildren: bool): (r: Shown)
    ensures r.value == (if value.Some? then value.value else UnknownValue)
    ensures r.hasChildren == hasChildren
  {
    Shown(if value.Some? then value.value else UnknownValue, hasChildren)
  }

  /** `GetTypeName`: the engine's name of the value's type, or the empty
      string when the lookup fails. */
  function GetTypeName(symbols: SymbolsApi, data: TypedData): (name: string)
    ensures symbols.typeName(data.modBase, data.typeId).None? ==> name == ""
    ensures symbols.typeName(data.modBase, data.typeId).Some? ==> name == symbols.typeName(data.modBase, data.typeId).value
  {
    match symbols.typeName(data.modBase, data.typeId)
    case None => ""
    case Some(n) => n
  }

  // ---------------------------------------------------------------------
  // Display text

  /** `Enquote`: the text between double quotes. */
  function Enquote(s: string): (r: string)
    ensures |r| == |s| + 2 && r[0] == '"' && r[|r| - 1] == '"'
    ensures r[1..|r| - 1] == s
  {
    "\"" + s + "\""
  }

  /** Quoting loses nothing: different texts are quoted differently. */
  lemma EnquoteInjective(a: string, b: string)
    requires Enquote(a) == Enquote(b)
    ensures a == b
  {
    var qa, qb := Enquote(a), Enquote(b);
    assert qa[1..|qa| - 1] == qb[1..|qb| - 1];
  }

  /** `$"{typeName}::{variant}"`. */
  function Qualified(typeName: string, variant: string): (r: string)
    ensures |r| == |typeName| + 2 + |variant|
    ensures r[..|typeName|] == typeName && r[|typeName|..|typeName| + 2] == "::"
    ensures r[|typeName| + 2..] == variant
  {
    typeName + "::" + variant
  }

  /** The text before the first NUL character, or the whole text followed by
      `...` when it holds none; either way no NUL remains. */
  function CutAtNul(s: string): (r: string)
    ensures '\0' !in r
    ensures '\0' !in s ==> r == s + "..."
    ensures '\0' in s ==> |r| < |s| && r == s[..|r|] && s[|r|] == '\0'
  {
    var end := IndexOfChar(s, '\0');
    if end == NotFound then
      assert forall i :: 0 <= i < |s| ==> s[i] != '\0';
      s + "..."
    else
      assert forall i :: 0 <= i < end ==> s[..end][i] == s[i];
      s[..end]
  }

  /** The name of the `i`-th element of an array: `[i]`. */
  function ItemName(i: nat): (name: string)
    ensures |name| >= 3 && name[0] == '[' && name[|name| - 1] == ']'
  {
    "[" + NatToString(i) + "]"
  }

  /** Different elements are named differently. */
  lemma ItemNameInjective(i: nat, j: nat)
    requires ItemName(i) == ItemName(j)
    ensures i == j
  {
    var a, b := ItemName(i), ItemName(j);
    assert a[1..|a| - 1] == NatToString(i);
    assert b[1..|b| - 1] == NatToString(j);
    NatToStringInjective(i, j);
  }

  /** `ReadArray(pointer, n)`: the metadata of the first `n` elements behind
      `pointer`, in order, each named `[i]`, typed with the name of the
      pointee type, and holding the engine's `i`-th array element. */
  function ArrayItems(h: RequestHelper, symbols: SymbolsApi, pointer: TypedData, n: nat): (metas: seq<Meta>)
    ensures |metas| == n
    ensures forall i :: 0 <= i < n ==> metas[i].name == ItemName(i)
    ensures forall i :: 0 <= i < n ==> metas[i].typeName == GetTypeName(symbols, h.advanced.dereference(pointer))
    ensures forall i :: 0 <= i < n ==> metas[i].entry == h.advanced.arrayItem(pointer, i)
    decreases n
  {
    if n == 0 then []
    else
      var item := Meta(ItemName(n - 1), GetTypeName(symbols, h.advanced.dereference(pointer)), h.advanced.arrayItem(pointer, n - 1));
      ArrayItems(h, symbols, pointer, n - 1) + [item]
  }

  // ---------------------------------------------------------------------
  // Resolving children

  /** Each child paired, in order, with what `handle` shows for it; the
      first child whose handling throws stops the walk with that exception. */
  function Resolved(metas: seq<Meta>, handle: Meta -> Result<Shown>): (r: Result<seq<(Meta, Shown)>>)
    decreases |metas|
  {
    if |metas| == 0 then Ok([])
    else
      match Resolved(metas[..|metas| - 1], handle)
      case Err(f) => Err(f)
      case Ok(pairs) =>
        match handle(metas[|metas| - 1])
        case Err(f) => Err(f)
        case Ok(shown) => Ok(pairs + [(metas[|metas| - 1], shown)])
  }

  /** A handler that never throws resolves every child. */
  lemma ResolvedTotal(metas: seq<Meta>, handle: Meta -> Result<Shown>)
    requires forall m :: handle(m).Ok?
    ensures Resolved(metas, handle).Ok? && |Resolved(metas, handle).value| == |metas|
  {
    ResolvedPairs(metas, handle);
    assert forall i :: 0 <= i < |metas| ==> handle(metas[i]).Ok?;
  }

  /** The walk succeeds exactly when every child is handled, and then yields
      every child with its own display, in order. */
  lemma {:induction false} ResolvedPairs(metas: seq<Meta>, handle: Meta -> Result<Shown>)
    ensures Resolved(metas, handle).Ok? <==> forall i :: 0 <= i < |metas| ==> handle(metas[i]).Ok?
    ensures Resolved(metas, handle).Ok? ==>
      && |Resolved(metas, handle).value| == |metas|
      && forall i :: 0 <= i < |metas| ==> Resolved(metas, handle).value[i] == (metas[i], handle(metas[i]).value)
    decreases |metas|
  {
    if |metas| > 0 {
      var init := metas[..|metas| - 1];
      ResolvedPairs(init, handle);
      assert forall i :: 0 <= i < |init| ==> init[i] == metas[i];
    }
  }

  /** A failed walk fails with the exception of the first child that throws. */
  lemma {:induction false} ResolvedFirstFailure(metas: seq<Meta>, handle: Meta -> Result<Shown>)
    requires Resolved(metas, handle).Err?
    ensures exists i ::
      && 0 <= i < |metas| && handle(metas[i]).Err?
      && Resolved(metas, handle) == Err(handle(metas[i]).fault)
      && forall j :: 0 <= j < i ==> handle(metas[j]).Ok?
    decreases |metas|
  {
    var init := metas[..|metas| - 1];
    assert forall i :: 0 <= i < |init| ==> init[i] == metas[i];
    if Resolved(init, handle).Err? {
      ResolvedFirstFailure(init, handle);
    } else {
      ResolvedPairs(init, handle);
      assert handle(metas[|metas| - 1]).Err?;
    }
  }

  /** Once a prefix of the walk has failed, the whole walk fails the same way. */
  lemma {:induction false} ResolvedStops(metas: seq<Meta>, handle: Meta -> Result<Shown>, i: nat)
    requires i <= |metas| && Resolved(metas[..i], handle).Err?
    ensures Resolved(metas, handle) == Resolved(metas[..i], handle)
    decreases |metas| - i
  {
    if i < |metas| {
      assert metas[..i + 1][..i] == metas[..i];
      ResolvedStops(metas, handle, i + 1);
    } else {
      assert metas[..i] == metas;
    }
  }

  /** The loop that handles each child in turn and adds it to the result. */
  method ResolveAll(metas: seq<Meta>, handle: Meta -> Result<Shown>) returns (r: Result<seq<(Meta, Shown)>>)
    ensures r == Resolved(metas, handle)
  {
    var result := [];
    var i := 0;
    while i < |metas|
      invariant 0 <= i <= |metas|
      invariant Resolved(metas[..i], handle) == Ok(result)
    {
      assert metas[..i + 1][..i] == metas[..i];
      var visualized := handle(metas[i]);
      if visualized.Err? {
        ResolvedStops(metas, handle, i + 1);
        return Err(visualized.fault);
      }
      result := result + [(metas[i], visualized.value)];
      i := i + 1;
    }
    assert metas[..i] == metas;
    r := Ok(result);
  }

  /** `ReadArray(pointer, n)`: the first `n` elements behind `pointer`, each
      shown by the registry. */
  method ReadArray(h: RequestHelper, symbols: SymbolsApi, pointer: TypedData, n: nat, reHandle: Meta -> Result<Shown>)
    returns (r: Result<seq<(Meta, Shown)>>)
    ensures r == Resolved(ArrayItems(h, symbols, pointer, n), reHandle)
  {
    r := ResolveAll(ArrayItems(h, symbols, pointer, n), reHandle);
  }

  /** One child per field, named by its key and typed by its value. */
  function FieldMetas(symbols: SymbolsApi, fields: seq<(string, TypedData)>): (metas: seq<Meta>)
    ensures |metas| == |fields|
    ensures forall i :: 0 <= i < |fields| ==> metas[i] == Meta(fields[i].0, GetTypeName(symbols, fields[i].1), fields[i].1)
  {
    seq(|fields|, i requires 0 <= i < |fields| => Meta(fields[i].0, GetTypeName(symbols, fields[i].1), fields[i].1))
  }

  // ---------------------------------------------------------------------
  // Field access on a variable read by `ReadVariable`

  /** `Fields.First()`, which throws on a variable without fields. */
  function FirstField(entries: seq<(string, TypedData)>): (r: Result<(string, TypedData)>)
    ensures r.Ok? <==> |entries| > 0
    ensures r.Ok? ==> r.value == entries[0]
    ensures r.Err? ==> r == Err(InvalidOperation)
  {
    if |entries| == 0 then Err(InvalidOperation) else Ok(entries[0])
  }

  /** `Fields[key]`, which throws when no field has that key. */
  function FieldNamed(entries: seq<(string, TypedData)>, key: string): (r: Result<TypedData>)
    ensures r.Ok? <==> exists i :: 0 <= i < |entries| && entries[i].0 == key
    ensures r.Ok? ==> exists i :: 0 <= i < |entries| && entries[i] == (key, r.value)
    ensures r.Err? ==> r == Err(KeyNotFound(key))
  {
    if |entries| == 0 then Err(KeyNotFound(key))
    else if entries[0].0 == key then Ok(entries[0].1)
    else
      var r := FieldNamed(entries[1..], key);
      assert forall i :: 0 <= i < |entries| - 1 ==> entries[1..][i] == entries[i + 1];
      r
  }

  /** Some name starts with `prefix`, ignoring case. */
  predicate AnyStartsWith(names: seq<string>, prefix: string) {
    exists i :: 0 <= i < |names| && StartsWith(names[i], prefix, OrdinalIgnoreCase)
  }

  /** Some name starts with `prefix`, ignoring case, exactly when the fold of
      some name starts with the fold of `prefix`. */
  lemma AnyStartsWithFolded(names: seq<string>, prefix: string)
    ensures AnyStartsWith(names, prefix) <==> exists i :: 0 <= i < |names| && Folded(prefix) <= Folded(names[i])
  {
    forall i | 0 <= i < |names|
      ensures StartsWith(names[i], prefix, OrdinalIgnoreCase) <==> Folded(prefix) <= Folded(names[i])
    {
      StartsWithIgnoringCase(names[i], prefix);
    }
  }

  // ---------------------------------------------------------------------
  // Reads of raw memory

  /** `GetEnumValue`: the single byte at the value's offset. The empty array
      of a failed read has no element 0. */
  function Discriminant(h: RequestHelper, entry: TypedData): (r: Result<int>)
    ensures r.Ok? <==> h.spaces.readable(entry.offset, 1)
    ensures r.Ok? ==> r.value == h.spaces.memory(entry.offset) && 0 <= r.value < 256
    ensures r.Err? ==> r == Err(IndexOutOfRange)
  {
    var bytes := ReadValue(h, entry.offset, 1);
    if |bytes| == 0 then Err(IndexOutOfRange) else Ok(bytes[0])
  }

  /** `Offset + Size - 8` in unsigned 64-bit arithmetic. */
  function LastWordAddress(entry: TypedData): (a: nat)
    ensures a < UInt64Modulus
    ensures 8 <= entry.offset + entry.size < UInt64Modulus + 8 ==> a == entry.offset + entry.size - 8
  {
    (entry.offset + entry.size - 8) % UInt64Modulus
  }

  /** The last eight bytes of a value read as an unsigned 64-bit integer;
      `BitConverter` throws on the empty array of a failed read. */
  function TrailingPointer(h: RequestHelper, entry: TypedData): (r: Result<nat>)
    ensures r.Ok? <==> h.spaces.readable(LastWordAddress(entry), 8)
    ensures r.Ok? ==> r.value < Pow256(8) && Encode(r.value, 8) == ReadValue(h, LastWordAddress(entry), 8)
  {
    var bytes := ReadValue(h, LastWordAddress(entry), 8);
    assert h.spaces.readable(LastWordAddress(entry), 8) ==> bytes[..8] == bytes;
    ToUnsigned(bytes, 8)
  }

  // ---------------------------------------------------------------------
  // The encoded-enum visualizer

  /** `CanHandle`: some field of the value's type starts with
      `RUST$ENCODED$ENUM`, ignoring case. */
  function EncodedEnumCanHandle(h: RequestHelper, meta: Meta): (r: bool)
    ensures var names := h.symbols.fieldNames(meta.entry);
      r <==> exists i :: 0 <= i < |names| && Folded(EncodedEnumPrefix) <= Folded(names[i])
  {
    AnyStartsWithFolded(h.symbols.fieldNames(meta.entry), EncodedEnumPrefix);
    AnyStartsWith(h.symbols.fieldNames(meta.entry), EncodedEnumPrefix)
  }

  /** `ReadEnumNames`: from the type definition text, the name of the empty
      variant (the text before the first `:`, trimmed, after its last `$`)
      and the name of the pointer variant (the text after the first `:`,
      trimmed, from two characters past its own first `:`). `Substring`
      throws when the text holds no `:` or the second part is too short. */
  function EncodedEnumNames(text: string): (r: Result<(string, string)>)
    ensures ':' !in text ==> r.Err?
    ensures r.Ok? ==> '$' !in r.value.0 && ':' !in r.value.0
  {
    var colon := IndexOfChar(text, ':');
    if colon == NotFound then Err(ArgumentOutOfRange("length"))
    else
      var tail := PointerPart(text, colon);
      var start := IndexOfChar(tail, ':') + 2;
      if start <= |tail| then Ok((EmptyVariant(text, colon), tail[start..]))
      else Err(ArgumentOutOfRange("startIndex"))
  }

  /** The text before the first `:`, trimmed, after its last `$`. */
  function EmptyVariant(text: string, colon: nat): (name: string)
    requires colon == IndexOfChar(text, ':')
    ensures '$' !in name && ':' !in name
  {
    assert forall i :: 0 <= i < colon ==> text[..colon][i] == text[i];
    TrimExcludes(text[..colon], ':');
    AfterLast(Trim(text[..colon]), '$')
  }

  /** The text after the first `:`, trimmed. */
  function PointerPart(text: string, colon: nat): string
    requires colon < |text|
  {
    Trim(text[colon + 1..])
  }

  /** A definition text of the shape the engine prints for such an enum,
      `<prefix>$<none>: <path>::<some>`, gives back both variant names. */
  lemma EncodedEnumNamesOf(prefix: string, none: string, path: string, some: string)
    requires ':' !in prefix && ':' !in none && '$' !in none && ':' !in path
    requires |prefix| > 0 ==> !IsWhiteSpace(prefix[0])
    requires |none| > 0 && !IsWhiteSpace(none[|none| - 1])
    requires |path| > 0 && !IsWhiteSpace(path[0])
    requires |some| > 0 && !IsWhiteSpace(some[|some| - 1])
    ensures EncodedEnumNames((prefix + "$" + none) + ": " + (path + "::" + some)) == Ok((none, some))
  {
    var head := prefix + "$" + none;
    var tail := path + "::" + some;
    var text := head + ": " + tail;
    var colon := |head|;
    assert colon < |text| && text[colon + 1..] == " " + tail && IndexOfChar(text, ':') == colon && EmptyVariant(text, colon) == none by {
      HeadOfDefinition(prefix, none, head, tail, text);
    }
    assert PointerPart(text, colon) == tail && IndexOfChar(tail, ':') + 2 <= |tail| && tail[IndexOfChar(tail, ':') + 2..] == some by {
      TailOfDefinition(path, some, tail, text, colon);
    }
    NamesFromParts(text, colon, tail, none, some);
  }

  /** `EncodedEnumNames` is determined by the position of the first `:`,
      the empty variant before it and the pointer part after it. */
  lemma NamesFromParts(text: string, colon: nat, tail: string, none: string, some: string)
    requires colon < |text| && IndexOfChar(text, ':') == colon
    requires EmptyVariant(text, colon) == none && PointerPart(text, colon) == tail
    requires IndexOfChar(tail, ':') + 2 <= |tail| && tail[IndexOfChar(tail, ':') + 2..] == some
    ensures EncodedEnumNames(text) == Ok((none, some))
  {
    assert IndexOfChar(text, ':') != NotFound;
    var start := IndexOfChar(tail, ':') + 2;
    assert EncodedEnumNames(text) == Ok((EmptyVariant(text, colon), tail[start..]));
  }

  /** The part before the first `:` of such a text yields the empty variant. */
  lemma HeadOfDefinition(prefix: string, none: string, head: string, tail: string, text: string)
    requires ':' !in prefix && ':' !in none && '$' !in none
    requires |prefix| > 0 ==> !IsWhiteSpace(prefix[0])
    requires |none| > 0 && !IsWhiteSpace(none[|none| - 1])
    requires head == prefix + "$" + none && text == head + ": " + tail
    ensures |head| < |text| && text[|head| + 1..] == " " + tail
    ensures IndexOfChar(text, ':') == |head| && EmptyVariant(text, |head|) == none
  {
    assert text[|head|] == ':';
    assert forall i :: 0 <= i < |head| ==> text[i] == head[i];
    IndexOfCharIs(text, ':', |head|);
    assert text[..|head|] == head;
    assert text[|head| + 1..] == " " + tail;
    NoneOfHead(prefix, none, head);
  }

  /** What follows the last `$` of `<prefix>$<none>`, trimmed, is `<none>`. */
  lemma NoneOfHead(prefix: string, none: string, head: string)
    requires '$' !in none
    requires |prefix| > 0 ==> !IsWhiteSpace(prefix[0])
    requires |none| > 0 && !IsWhiteSpace(none[|none| - 1])
    requires head == prefix + "$" + none
    ensures AfterLast(Trim(head), '$') == none
  {
    assert head[0] == (if |prefix| > 0 then prefix[0] else '$');
    TrimIdentity(head);
    LastIndexOfCharBefore(prefix, '$', none);
    assert head[|prefix| + 1..] == none;
  }

  /** The part after the first `:` of such a text yields the pointer variant. */
  lemma TailOfDefinition(path: string, some: string, tail: string, text: string, colon: nat)
    requires ':' !in path && |path| > 0 && !IsWhiteSpace(path[0])
    requires |some| > 0 && !IsWhiteSpace(some[|some| - 1])
    requires tail == path + "::" + some
    requires colon < |text| && text[colon + 1..] == " " + tail
    ensures PointerPart(text, colon) == tail
    ensures IndexOfChar(tail, ':') == |path| && tail[|path| + 2..] == some
  {
    assert tail[0] == path[0] && tail[|tail| - 1] == some[|some| - 1];
    PointerPartAfterSpace(text, colon, tail);
    SeparatorOfTail(path, some, tail);
  }

  /** In `<path>::<some>` the first `:` ends `<path>`. */
  lemma SeparatorOfTail(path: string, some: string, tail: string)
    requires ':' !in path && tail == path + "::" + some
    ensures IndexOfChar(tail, ':') == |path| && tail[|path| + 2..] == some
  {
    assert tail[|path|] == ':';
    assert forall i :: 0 <= i < |path| ==> tail[i] == path[i];
    IndexOfCharIs(tail, ':', |path|);
    assert tail[|path| + 2..] == some;
  }

  /** One space before a text without surrounding white space is trimmed off. */
  lemma PointerPartAfterSpace(text: string, colon: nat, tail: string)
    requires colon < |text| && text[colon + 1..] == " " + tail
    requires |tail| > 0 && !IsWhiteSpace(tail[0]) && !IsWhiteSpace(tail[|tail| - 1])
    ensures PointerPart(text, colon) == tail
  {
    TrimPadded(" ", tail, "");
    assert " " + tail + "" == " " + tail;
  }

  /** `Handle` once the names and the pointer are known: a zero pointer
      selects the empty variant, any other the pointer variant, and the value
      expands exactly when the selected name differs from the empty one. */
  function EncodedEnumShown(typeName: string, names: (string, string), pointer: nat): (r: Shown)
    ensures r.value == Qualified(typeName, if pointer == 0 then names.0 else names.1)
    ensures r.hasChildren <==> pointer != 0 && names.1 != names.0
  {
    var name := if pointer == 0 then names.0 else names.1;
    Shown(Qualified(typeName, name), name != names.0)
  }

  /** `Handle`: reads the variable (whose first field must exist), the
      variant names from the type definition and the trailing pointer, each
      of which may throw, in that order. */
  function EncodedEnumHandle(h: RequestHelper, meta: Meta): (r: Result<Shown>)
    ensures !ReadFinishes(h, meta.entry) ==> r == Err(StackOverflow)
    ensures r.Ok? <==>
      && ReadFinishes(h, meta.entry)
      && |FieldEntries(h, meta.entry)| > 0
      && EncodedEnumNames(h.advanced.typeDefinitionText(meta.entry)).Ok?
      && h.spaces.readable(LastWordAddress(meta.entry), 8)
    ensures r.Ok? ==> r.value == EncodedEnumShown(meta.typeName, EncodedEnumNames(h.advanced.typeDefinitionText(meta.entry)).value,
                                                  TrailingPointer(h, meta.entry).value)
  {
    match ReadFields(h, meta.entry)
    case Err(f) => Err(f)
    case Ok(fields) =>
      match FirstField(fields)
      case Err(f) => Err(f)
      case Ok(_) =>
        match EncodedEnumNames(h.advanced.typeDefinitionText(meta.entry))
        case Err(f) => Err(f)
        case Ok(names) =>
          match TrailingPointer(h, meta.entry)
          case Err(f) => Err(f)
          case Ok(pointer) => Ok(EncodedEnumShown(meta.typeName, names, pointer))
  }

  /** `GetChildren`: the single child `inner`, built from the first field. */
  function EncodedEnumChild(h: RequestHelper, symbols: SymbolsApi, meta: Meta): (r: Result<Meta>)
    ensures !ReadFinishes(h, meta.entry) ==> r == Err(StackOverflow)
    ensures ReadFinishes(h, meta.entry) && |FieldEntries(h, meta.entry)| == 0 ==> r == Err(InvalidOperation)
    ensures r.Ok? <==> ReadFinishes(h, meta.entry) && |FieldEntries(h, meta.entry)| > 0
    ensures r.Ok? ==> var field := FieldEntries(h, meta.entry)[0].1;
      r.value == Meta("inner", GetTypeName(symbols, field), field)
  {
    match ReadFields(h, meta.entry)
    case Err(f) => Err(f)
    case Ok(fields) =>
      match FirstField(fields)
      case Err(f) => Err(f)
      case Ok(field) => Ok(Meta("inner", GetTypeName(symbols, field.1), field.1))
  }
}
