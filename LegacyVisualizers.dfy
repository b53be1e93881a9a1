/** The visualizers of the first adapter generation and the registry that
    picks one for each value: the default visualizer (pointers, arrays,
    structures) and the Rust decoders for enums, encoded enums, `&str`,
    WTF-8 strings, slices and vectors. A visualizer is a value of
    `Visualizer`, whose `kind` selects the class of the source. */
module LegacyVisualizers {
  import opened Base
  import opened Text
  import opened Bytes
  import opened TypedMemory
  import opened Visualization
  import opened RustEnum

  /** The concrete visualizer classes. */
  datatype Kind =
    | DefaultVisualizer
    | RustEnumVisualizer
    | RustEncodedEnumVisualizer
    | RustStringVisualizer
    | RustWtf8Visualizer
    | RustSliceVisualizer
    | RustVectorVisualizer

  /** A constructed visualizer: its class, the request helper and symbols it
      was given, and `Encoding.Default.GetString`, which turns debuggee bytes
      into text. */
  datatype Visualizer = Visualizer(kind: Kind, helper: RequestHelper, symbols: SymbolsApi, decode: seq<byte> -> string)

  /** The classes whose constructor also takes the output-capture object. */
  predicate TakesOutput(kind: Kind) {
    kind == DefaultVisualizer || kind == RustEnumVisualizer || kind == RustEncodedEnumVisualizer
  }

  /** The constructors: `VisualizerBase` rejects a null helper, symbols
      interface or registry, in that order, and the classes that capture
      engine output then reject a null output object. */
  function NewVisualizer(kind: Kind, helper: Option<RequestHelper>, symbols: Option<SymbolsApi>,
                         registry: LegacyRegistry?, hasOutput: bool, decode: seq<byte> -> string): (r: Result<Visualizer>)
    ensures r.Ok? <==> helper.Some? && symbols.Some? && registry != null && (TakesOutput(kind) ==> hasOutput)
    ensures r.Ok? ==> r.value == Visualizer(kind, helper.value, symbols.value, decode)
    ensures helper.None? ==> r == Err(ArgumentNull("helper"))
    ensures helper.Some? && symbols.None? ==> r == Err(ArgumentNull("symbols"))
    ensures helper.Some? && symbols.Some? && registry == null ==> r == Err(ArgumentNull("registry"))
    ensures helper.Some? && symbols.Some? && registry != null && TakesOutput(kind) && !hasOutput ==> r == Err(ArgumentNull("output"))
  {
    if helper.None? then Err(ArgumentNull("helper"))
    else if symbols.None? then Err(ArgumentNull("symbols"))
    else if registry == null then Err(ArgumentNull("registry"))
    else if TakesOutput(kind) && !hasOutput then Err(ArgumentNull("output"))
    else Ok(Visualizer(kind, helper.value, symbols.value, decode))
  }

  /** `VisualizerBase.ReadString`: the bytes at `offset` as text; a failed
      read gives no bytes. */
  function ReadText(v: Visualizer, offset: nat, size: nat): (text: string)
    ensures v.helper.spaces.readable(offset, size) ==>
      text == v.decode(seq(size, i requires 0 <= i < size => v.helper.spaces.memory(offset + i)))
    ensures !v.helper.spaces.readable(offset, size) ==> text == v.decode([])
  {
    v.decode(ReadValue(v.helper, offset, size))
  }

  // ---------------------------------------------------------------------
  // DefaultVisualizer

  /** `DoHandle` of the default visualizer: a pointer shows its address and
      type and has children; an array shows its type and has children when it
      spans at least 16 bytes; anything else shows the engine's trimmed short
      value and has children when its type has fields. */
  function DefaultShown(v: Visualizer, meta: Meta): (r: Shown)
    ensures meta.entry.tag == PointerTag ==>
      r.hasChildren && r.value == NatToString(meta.entry.data) + " (" + meta.typeName + ")"
    ensures meta.entry.tag == ArrayTag ==> r.value == meta.typeName && (r.hasChildren <==> meta.entry.size >= 16)
    ensures meta.entry.tag != PointerTag && meta.entry.tag != ArrayTag ==>
      && r.value == Trim(v.helper.advanced.shortValueText(meta.entry))
      && (r.hasChildren <==> |v.helper.symbols.fieldNames(meta.entry)| > 0)
  {
    var entry := meta.entry;
    if entry.tag == PointerTag then Shown(NatToString(entry.data) + " (" + meta.typeName + ")", true)
    else if entry.tag == ArrayTag then Shown(meta.typeName, entry.size / 16 > 0)
    else Shown(Trim(v.helper.advanced.shortValueText(entry)), |v.helper.symbols.fieldNames(entry)| > 0)
  }

  /** The child of a structure for the field `name`. */
  function FieldChild(v: Visualizer, entry: TypedData, name: string): (m: Meta)
    ensures m.name == name && m.entry == v.helper.advanced.getField(entry, name)
    ensures m.typeName == GetTypeName(v.symbols, m.entry)
  {
    var fieldData := v.helper.advanced.getField(entry, name);
    Meta(name, GetTypeName(v.symbols, fieldData), fieldData)
  }

  /** The children of a structure: one per field name the engine reports,
      in order, each shown by the default visualizer itself. */
  function StructChildren(v: Visualizer, entry: TypedData): (children: seq<(Meta, Shown)>)
    ensures |children| == |v.helper.symbols.fieldNames(entry)|
    ensures forall i :: 0 <= i < |children| ==>
      children[i].0 == FieldChild(v, entry, v.helper.symbols.fieldNames(entry)[i]) && children[i].1 == DefaultShown(v, children[i].0)
  {
    var names := v.helper.symbols.fieldNames(entry);
    seq(|names|, i requires 0 <= i < |names| => (FieldChild(v, entry, names[i]), DefaultShown(v, FieldChild(v, entry, names[i]))))
  }

  /** `DoGetChildren` of the default visualizer. A pointer has the single
      child `inner`, the value it points to; an array has `size / itemSize`
      elements shown by the registry, with no guard against a zero element
      size; a structure has one child per field. */
  function DefaultChildren(v: Visualizer, meta: Meta, reHandle: Meta -> Result<Shown>): (r: Result<seq<(Meta, Shown)>>)
    ensures meta.entry.tag == PointerTag ==>
      var target := v.helper.advanced.dereference(meta.entry);
      && r.Ok? && |r.value| == 1
      && r.value[0].0 == Meta("inner", GetTypeName(v.symbols, target), target)
      && r.value[0].1 == DefaultShown(v, r.value[0].0)
    ensures meta.entry.tag == ArrayTag && v.helper.advanced.dereference(meta.entry).size == 0 ==> r == Err(DivideByZero)
    ensures meta.entry.tag == ArrayTag && v.helper.advanced.dereference(meta.entry).size > 0 ==>
      r == Resolved(ArrayItems(v.helper, v.symbols, meta.entry, meta.entry.size / v.helper.advanced.dereference(meta.entry).size), reHandle)
    ensures meta.entry.tag != PointerTag && meta.entry.tag != ArrayTag ==> r == Ok(StructChildren(v, meta.entry))
  {
    var entry := meta.entry;
    if entry.tag == PointerTag then
      var target := v.helper.advanced.dereference(entry);
      var inner := Meta("inner", GetTypeName(v.symbols, target), target);
      Ok([(inner, DefaultShown(v, inner))])
    else if entry.tag == ArrayTag then
      var itemSize := v.helper.advanced.dereference(entry).size;
      if itemSize == 0 then Err(DivideByZero)
      else Resolved(ArrayItems(v.helper, v.symbols, entry, entry.size / itemSize), reHandle)
    else Ok(StructChildren(v, entry))
  }

  /** For pointers and structures the flag `DoHandle` reports agrees with
      whether `DoGetChildren` yields any child. */
  lemma DefaultChildrenAgree(v: Visualizer, meta: Meta, reHandle: Meta -> Result<Shown>)
    requires meta.entry.tag != ArrayTag
    ensures DefaultChildren(v, meta, reHandle).Ok?
    ensures DefaultShown(v, meta).hasChildren <==> |DefaultChildren(v, meta, reHandle).value| > 0
  {
  }

  /** An array's flag and its element count disagree whenever its elements
      are not 16 bytes wide: a 16-byte array of 1-byte elements has 16
      children, yet the flag is set the same as for any other array that
      spans 16 bytes, and an 8-byte array of 1-byte elements shows no
      children although it has 8. */
  lemma DefaultArrayFlagIgnoresItems(v: Visualizer, meta: Meta, reHandle: Meta -> Result<Shown>)
    requires meta.entry.tag == ArrayTag && meta.entry.size == 8
    requires v.helper.advanced.dereference(meta.entry).size == 1
    requires forall m :: reHandle(m).Ok?
    ensures !DefaultShown(v, meta).hasChildren
    ensures DefaultChildren(v, meta, reHandle).Ok? && |DefaultChildren(v, meta, reHandle).value| == 8
  {
    var metas := ArrayItems(v.helper, v.symbols, meta.entry, 8);
    assert DefaultChildren(v, meta, reHandle) == Resolved(metas, reHandle) by {
      assert meta.entry.size / v.helper.advanced.dereference(meta.entry).size == 8;
    }
    ResolvedTotal(metas, reHandle);
  }

  /** The loop over field names that fills the children of a structure. */
  method GetStructChildren(v: Visualizer, entry: TypedData) returns (result: seq<(Meta, Shown)>)
    ensures result == StructChildren(v, entry)
  {
    var fieldNames := v.helper.symbols.fieldNames(entry);
    result := [];
    var i := 0;
    while i < |fieldNames|
      invariant 0 <= i <= |fieldNames|
      invariant result == StructChildren(v, entry)[..i]
    {
      var fieldData := v.helper.advanced.getField(entry, fieldNames[i]);
      var meta := Meta(fieldNames[i], GetTypeName(v.symbols, fieldData), fieldData);
      result := result + [(meta, DefaultShown(v, meta))];
      i := i + 1;
    }
  }

  method GetDefaultChildren(v: Visualizer, meta: Meta, reHandle: Meta -> Result<Shown>) returns (r: Result<seq<(Meta, Shown)>>)
    ensures r == DefaultChildren(v, meta, reHandle)
  {
    var typedData := meta.entry;
    if typedData.tag == PointerTag {
      var pointerValue := v.helper.advanced.dereference(typedData);
      var inner := Meta("inner", GetTypeName(v.symbols, pointerValue), pointerValue);
      r := Ok([(inner, DefaultShown(v, inner))]);
    } else if typedData.tag == ArrayTag {
      var itemSize := v.helper.advanced.dereference(typedData).size;
      if itemSize == 0 {
        return Err(DivideByZero);
      }
      r := ReadArray(v.helper, v.symbols, typedData, typedData.size / itemSize, reHandle);
    } else {
      var children := GetStructChildren(v, typedData);
      r := Ok(children);
    }
  }

  // ---------------------------------------------------------------------
  // RustStringVisualizer

  const StrTypeName := "struct &str"
  const StrPointerTypeName := "struct &str *"
  const ShortStrTypeName := "&str"

  /** `DoCanHandle`: the type is one of the three `&str` spellings, ignoring case. */
  function StringCanHandle(meta: Meta): (r: bool)
    ensures r <==> Folded(meta.typeName) in {Folded(StrTypeName), Folded(StrPointerTypeName), Folded(ShortStrTypeName)}
  {
    EqualsIgnoringCase(meta.typeName, StrTypeName);
    EqualsIgnoringCase(meta.typeName, StrPointerTypeName);
    EqualsIgnoringCase(meta.typeName, ShortStrTypeName);
    || EqualsCmp(meta.typeName, StrTypeName, OrdinalIgnoreCase)
    || EqualsCmp(meta.typeName, StrPointerTypeName, OrdinalIgnoreCase)
    || EqualsCmp(meta.typeName, ShortStrTypeName, OrdinalIgnoreCase)
  }

  /** `ReadPointerString`: up to `MaxStringSize` bytes at the pointee, cut at
      the first NUL or marked `...` when none was read. */
  function PointerString(v: Visualizer, meta: Meta): (text: string)
    ensures '\0' !in text
    ensures var read := ReadText(v, v.helper.advanced.dereference(meta.entry).offset, MaxStringSize);
      && ('\0' !in read ==> text == read + "...")
      && ('\0' in read ==> |text| < |read| && text == read[..|text|] && read[|text|] == '\0')
  {
    CutAtNul(ReadText(v, v.helper.advanced.dereference(meta.entry).offset, MaxStringSize))
  }

  /** `ReadStaticString`: the `length` field gives the length, truncated to
      32 bits, and the value's own bytes the address of the characters. A
      missing field, or fewer than 8 bytes read, throws. */
  function StaticString(v: Visualizer, meta: Meta): (r: Result<string>)
    ensures !ReadFinishes(v.helper, meta.entry) ==> r == Err(StackOverflow)
    ensures r.Ok? <==>
      && ReadFinishes(v.helper, meta.entry)
      && FieldNamed(FieldEntries(v.helper, meta.entry), "length").Ok?
      && |ReadValue(v.helper, meta.entry.offset, meta.entry.size)| >= 8
    ensures r.Ok? ==>
      var length := FieldNamed(FieldEntries(v.helper, meta.entry), "length").value.data;
      var pointer := ToUnsigned(ReadValue(v.helper, meta.entry.offset, meta.entry.size), 8).value;
      r.value == ReadText(v, pointer, length % UInt32Modulus)
  {
    match ReadFields(v.helper, meta.entry)
    case Err(f) => Err(f)
    case Ok(fields) =>
      match FieldNamed(fields, "length")
      case Err(f) => Err(f)
      case Ok(lengthField) =>
        match ToUnsigned(ReadValue(v.helper, meta.entry.offset, meta.entry.size), 8)
        case Err(f) => Err(f)
        case Ok(pointer) => Ok(ReadText(v, pointer, lengthField.data % UInt32Modulus))
  }

  /** `DoHandle`: types ending in `*` are read through the pointer, the
      others in place; the text is quoted and never has children. */
  function StringHandle(v: Visualizer, meta: Meta): (r: Result<Shown>)
    ensures !StringCanHandle(meta) ==> r == Err(Argument("meta"))
    ensures StringCanHandle(meta) && EndsWith(meta.typeName, "*", Ordinal) ==>
      r == Ok(Shown(Enquote(PointerString(v, meta)), false))
    ensures StringCanHandle(meta) && !EndsWith(meta.typeName, "*", Ordinal) ==>
      && (r.Ok? <==> StaticString(v, meta).Ok?)
      && (r.Ok? ==> r.value == Shown(Enquote(StaticString(v, meta).value), false))
  {
    if !StringCanHandle(meta) then Err(Argument("meta"))
    else if EndsWith(meta.typeName, "*", Ordinal) then Ok(Shown(Enquote(PointerString(v, meta)), false))
    else
      match StaticString(v, meta)
      case Err(f) => Err(f)
      case Ok(text) => Ok(Shown(Enquote(text), false))
  }

  /** Among the accepted types exactly `struct &str *` takes the pointer
      path: the other two end in a letter. */
  lemma StringPointerPath(meta: Meta)
    requires StringCanHandle(meta)
    ensures EndsWith(meta.typeName, "*", Ordinal) <==> EqualsCmp(meta.typeName, StrPointerTypeName, OrdinalIgnoreCase)
  {
    var t := meta.typeName;
    if EqualsCmp(t, StrPointerTypeName, OrdinalIgnoreCase) {
      assert CharEquals(t[12], StrPointerTypeName[12], OrdinalIgnoreCase);
      assert t[|t| - 1..] == [t[12]];
    } else if EqualsCmp(t, StrTypeName, OrdinalIgnoreCase) {
      assert CharEquals(t[10], StrTypeName[10], OrdinalIgnoreCase);
      assert t[|t| - 1..] == [t[10]];
    } else {
      assert CharEquals(t[3], ShortStrTypeName[3], OrdinalIgnoreCase);
      assert t[|t| - 1..] == [t[3]];
    }
  }

  // ---------------------------------------------------------------------
  // RustWtf8Visualizer

  const Wtf8TypeName := "struct std::sys_common::wtf8::Wtf8"

  /** `DoCanHandle`: the type is the `Wtf8` struct, ignoring case. */
  function Wtf8CanHandle(meta: Meta): (r: bool)
    ensures r <==> Folded(meta.typeName) == Folded(Wtf8TypeName)
  {
    EqualsIgnoringCase(meta.typeName, Wtf8TypeName);
    EqualsCmp(meta.typeName, Wtf8TypeName, OrdinalIgnoreCase)
  }

  /** `DoHandle`: up to `MaxStringSize` bytes at the value itself, cut at the
      first NUL or marked `...`; not quoted, no children. */
  function Wtf8Shown(v: Visualizer, meta: Meta): (r: Shown)
    ensures !r.hasChildren && '\0' !in r.value
    ensures var text := ReadText(v, meta.entry.offset, MaxStringSize);
      && ('\0' !in text ==> r.value == text + "...")
      && ('\0' in text ==> |r.value| < |text| && r.value == text[..|r.value|] && text[|r.value|] == '\0')
  {
    Shown(CutAtNul(ReadText(v, meta.entry.offset, MaxStringSize)), false)
  }

  // ---------------------------------------------------------------------
  // RustSliceVisualizer

  const SliceMarker := "&["

  /** `DoCanHandle`: the type name holds `&[` somewhere. */
  function SliceCanHandle(meta: Meta): (r: bool)
    ensures r <==> exists i :: OccursAt(meta.typeName, i, SliceMarker)
  {
    ContainsOccurs(meta.typeName, SliceMarker);
    Contains(meta.typeName, SliceMarker)
  }

  /** The slice length: the value of the `length` field, which must exist,
      of a value whose field tree was read to the end. */
  function SliceLength(v: Visualizer, meta: Meta): (r: Result<nat>)
    ensures r.Ok? <==>
      && ReadFinishes(v.helper, meta.entry)
      && exists i :: 0 <= i < |FieldEntries(v.helper, meta.entry)| && FieldEntries(v.helper, meta.entry)[i].0 == "length"
    ensures !ReadFinishes(v.helper, meta.entry) ==> r == Err(StackOverflow)
    ensures ReadFinishes(v.helper, meta.entry) && r.Err? ==> r == Err(KeyNotFound("length"))
  {
    match ReadFields(v.helper, meta.entry)
    case Err(f) => Err(f)
    case Ok(fields) =>
      match FieldNamed(fields, "length")
      case Err(f) => Err(f)
      case Ok(field) => Ok(field.data)
  }

  /** `DoHandle`: `Type [length]`, with children when the length is positive. */
  function SliceHandle(v: Visualizer, meta: Meta): (r: Result<Shown>)
    ensures r.Ok? <==> SliceLength(v, meta).Ok?
    ensures r.Ok? ==>
      && r.value.value == meta.typeName + " [" + NatToString(SliceLength(v, meta).value) + "]"
      && (r.value.hasChildren <==> SliceLength(v, meta).value > 0)
  {
    match SliceLength(v, meta)
    case Err(f) => Err(f)
    case Ok(length) => Ok(Shown(meta.typeName + " [" + NatToString(length) + "]", length > 0))
  }

  /** `DoGetChildren`: `length` elements behind the `data_ptr` field. */
  function SliceChildren(v: Visualizer, meta: Meta, reHandle: Meta -> Result<Shown>): (r: Result<seq<(Meta, Shown)>>)
    ensures !ReadFinishes(v.helper, meta.entry) ==> r == Err(StackOverflow)
    ensures ReadFinishes(v.helper, meta.entry) && SliceLength(v, meta).Err? ==> r == Err(KeyNotFound("length"))
    ensures SliceLength(v, meta).Ok? && FieldNamed(FieldEntries(v.helper, meta.entry), "data_ptr").Err? ==>
      r == Err(KeyNotFound("data_ptr"))
    ensures SliceLength(v, meta).Ok? && FieldNamed(FieldEntries(v.helper, meta.entry), "data_ptr").Ok? ==>
      var pointer := FieldNamed(FieldEntries(v.helper, meta.entry), "data_ptr").value;
      r == Resolved(ArrayItems(v.helper, v.symbols, pointer, SliceLength(v, meta).value), reHandle)
    ensures r.Ok? ==> |r.value| == SliceLength(v, meta).value
  {
    match SliceLength(v, meta)
    case Err(f) => Err(f)
    case Ok(length) =>
      match FieldNamed(FieldEntries(v.helper, meta.entry), "data_ptr")
      case Err(f) => Err(f)
      case Ok(pointer) =>
        var metas := ArrayItems(v.helper, v.symbols, pointer, length);
        ResolvedPairs(metas, reHandle);
        Resolved(metas, reHandle)
  }

  method GetSliceChildren(v: Visualizer, meta: Meta, reHandle: Meta -> Result<Shown>) returns (r: Result<seq<(Meta, Shown)>>)
    ensures r == SliceChildren(v, meta, reHandle)
  {
    var variable := ReadFields(v.helper, meta.entry);
    if variable.Err? {
      return Err(variable.fault);
    }
    var length := SliceLength(v, meta);
    if length.Err? {
      return Err(length.fault);
    }
    var pointer := FieldNamed(variable.value, "data_ptr");
    if pointer.Err? {
      return Err(pointer.fault);
    }
    r := ReadArray(v.helper, v.symbols, pointer.value, length.value, reHandle);
  }

  /** The slice shows children exactly when it has elements to list. */
  lemma SliceChildrenAgree(v: Visualizer, meta: Meta, reHandle: Meta -> Result<Shown>)
    requires SliceChildren(v, meta, reHandle).Ok?
    ensures SliceHandle(v, meta).Ok?
    ensures SliceHandle(v, meta).value.hasChildren <==> |SliceChildren(v, meta, reHandle).value| > 0
  {
  }

  // ---------------------------------------------------------------------
  // RustVectorVisualizer

  const VectorTypeName := "struct collections::vec::Vec"

  /** `DoCanHandle`: the type name starts with the `Vec` type's name, ignoring case. */
  function VectorCanHandle(meta: Meta): (r: bool)
    ensures r <==> Folded(VectorTypeName) <= Folded(meta.typeName)
  {
    StartsWithIgnoringCase(meta.typeName, VectorTypeName);
    StartsWith(meta.typeName, VectorTypeName, OrdinalIgnoreCase)
  }

  /** The bytes of the `len` field. */
  function LengthBytes(v: Visualizer, meta: Meta): seq<byte> {
    var lengthField := v.helper.advanced.getField(meta.entry, "len");
    ReadValue(v.helper, lengthField.offset, lengthField.size)
  }

  /** `DoHandle`: `Vec` followed by what comes after the `Vec` prefix in the
      type name and `[len]`, with `len` read as a signed 64-bit integer; it
      has children when `len` is positive. Too few bytes, or a type name
      shorter than the prefix, throw. */
  function VectorHandle(v: Visualizer, meta: Meta): (r: Result<Shown>)
    ensures r.Ok? <==> |LengthBytes(v, meta)| >= 8 && |meta.typeName| >= |VectorTypeName|
    ensures r.Ok? ==>
      var len := ToSigned(LengthBytes(v, meta), 8).value;
      && r.value.value == "Vec" + meta.typeName[|VectorTypeName|..] + " [" + IntToString(len) + "]"
      && (r.value.hasChildren <==> len > 0)
  {
    match ToSigned(LengthBytes(v, meta), 8)
    case Err(f) => Err(f)
    case Ok(len) =>
      match SubstringFrom(meta.typeName, |VectorTypeName|)
      case Err(f) => Err(f)
      case Ok(rest) => Ok(Shown("Vec" + rest + " [" + IntToString(len) + "]", len > 0))
  }

  /** A vector the visualizer accepts is shown whenever its length can be
      read: the prefix check guarantees the type name is long enough. */
  lemma VectorHandleAccepted(v: Visualizer, meta: Meta)
    requires VectorCanHandle(meta) && |LengthBytes(v, meta)| >= 8
    ensures VectorHandle(v, meta).Ok?
  {
  }

  /** `DoGetChildren`: the length is read as an unsigned 64-bit integer, which
      may throw; the loop over the elements has an empty body, so there are
      never any children. */
  function VectorChildren(v: Visualizer, meta: Meta): (r: Result<seq<(Meta, Shown)>>)
    ensures r.Ok? <==> |LengthBytes(v, meta)| >= 8
    ensures r.Ok? ==> r.value == []
  {
    match ToUnsigned(LengthBytes(v, meta), 8)
    case Err(f) => Err(f)
    case Ok(_) => Ok([])
  }

  // ---------------------------------------------------------------------
  // VisualizerBase: dispatch on the class

  /** `CanHandle`, which returns `DoCanHandle` of the class. The default
      visualizer takes every value, and any value the encoded-enum visualizer
      takes is one the enum visualizer takes too. */
  function CanHandle(v: Visualizer, meta: Meta): (r: bool)
    ensures v.kind == DefaultVisualizer ==> r
    ensures v.kind == RustEncodedEnumVisualizer && r ==> EnumCanHandle(v.helper, meta)
  {
    match v.kind
    case DefaultVisualizer => true
    case RustEnumVisualizer => EnumCanHandle(v.helper, meta)
    case RustEncodedEnumVisualizer => EncodedEnumCanHandle(v.helper, meta)
    case RustStringVisualizer => StringCanHandle(meta)
    case RustWtf8Visualizer => Wtf8CanHandle(meta)
    case RustSliceVisualizer => SliceCanHandle(meta)
    case RustVectorVisualizer => VectorCanHandle(meta)
  }

  /** `Handle`, which returns `DoHandle` of the class. */
  function Handle(v: Visualizer, meta: Meta): (r: Result<Shown>)
    ensures v.kind == DefaultVisualizer ==> r == Ok(DefaultShown(v, meta))
    ensures v.kind == RustStringVisualizer || v.kind == RustWtf8Visualizer ==> r.Ok? ==> !r.value.hasChildren
    ensures v.kind == RustEnumVisualizer ==> r.Ok? ==> r.value.hasChildren
  {
    match v.kind
    case DefaultVisualizer => Ok(DefaultShown(v, meta))
    case RustEnumVisualizer => EnumHandle(v.helper, meta)
    case RustEncodedEnumVisualizer => EncodedEnumHandle(v.helper, meta)
    case RustStringVisualizer => StringHandle(v, meta)
    case RustWtf8Visualizer => Ok(Wtf8Shown(v, meta))
    case RustSliceVisualizer => SliceHandle(v, meta)
    case RustVectorVisualizer => VectorHandle(v, meta)
  }

  /** `GetChildren`, which returns `DoGetChildren` of the class; `reHandle` is
      the registry's `Handle`, through which the children of arrays, slices
      and enums are shown. */
  function Children(v: Visualizer, meta: Meta, reHandle: Meta -> Result<Shown>): (r: Result<seq<(Meta, Shown)>>)
    ensures v.kind == RustStringVisualizer || v.kind == RustWtf8Visualizer ==> r == Ok([])
    ensures v.kind == RustEncodedEnumVisualizer ==>
      && (r.Ok? ==> |r.value| == 1 && r.value[0].0.name == "inner")
      && (!ReadFinishes(v.helper, meta.entry) ==> r == Err(StackOverflow))
      && (ReadFinishes(v.helper, meta.entry) && |FieldEntries(v.helper, meta.entry)| == 0 ==> r == Err(InvalidOperation))
  {
    match v.kind
    case DefaultVisualizer => DefaultChildren(v, meta, reHandle)
    case RustEnumVisualizer => EnumChildren(v.helper, v.symbols, meta, reHandle)
    case RustEncodedEnumVisualizer =>
      (match EncodedEnumChild(v.helper, v.symbols, meta)
       case Err(f) => Err(f)
       case Ok(child) =>
         match reHandle(child)
         case Err(f) => Err(f)
         case Ok(shown) => Ok([(child, shown)]))
    case RustStringVisualizer => Ok([])
    case RustWtf8Visualizer => Ok([])
    case RustSliceVisualizer => SliceChildren(v, meta, reHandle)
    case RustVectorVisualizer => VectorChildren(v, meta)
  }

  method GetVisualizerChildren(v: Visualizer, meta: Meta, reHandle: Meta -> Result<Shown>) returns (r: Result<seq<(Meta, Shown)>>)
    ensures r == Children(v, meta, reHandle)
  {
    match v.kind {
      case DefaultVisualizer =>
        r := GetDefaultChildren(v, meta, reHandle);
      case RustEnumVisualizer =>
        r := GetEnumChildren(v.helper, v.symbols, meta, reHandle);
      case RustEncodedEnumVisualizer =>
        var child := EncodedEnumChild(v.helper, v.symbols, meta);
        if child.Err? {
          return Err(child.fault);
        }
        var shown := reHandle(child.value);
        if shown.Err? {
          return Err(shown.fault);
        }
        r := Ok([(child.value, shown.value)]);
      case RustStringVisualizer =>
        r := Ok([]);
      case RustWtf8Visualizer =>
        r := Ok([]);
      case RustSliceVisualizer =>
        r := GetSliceChildren(v, meta, reHandle);
      case RustVectorVisualizer =>
        r := VectorChildren(v, meta);
    }
  }

  /** Every value the encoded-enum visualizer accepts is also accepted by the
      enum visualizer, so the order of registration decides between them. */
  lemma EncodedEnumAlsoEnum(v: Visualizer, w: Visualizer, meta: Meta)
    requires v.kind == RustEncodedEnumVisualizer && w.kind == RustEnumVisualizer && v.helper == w.helper
    requires CanHandle(v, meta)
    ensures CanHandle(w, meta)
  {
  }

  // ---------------------------------------------------------------------
  // VisualizerRegistry

  /** The first visualizer of `entries` that accepts `meta`, if any. */
  function FirstAccepting(entries: seq<Visualizer>, meta: Meta): (r: Option<nat>)
    ensures r.Some? ==> r.value < |entries| && CanHandle(entries[r.value], meta)
    ensures r.Some? ==> forall j :: 0 <= j < r.value ==> !CanHandle(entries[j], meta)
    ensures r.None? ==> forall j :: 0 <= j < |entries| ==> !CanHandle(entries[j], meta)
    decreases |entries|
  {
    if |entries| == 0 then None
    else if CanHandle(entries[0], meta) then Some(0)
    else match FirstAccepting(entries[1..], meta)
      case None => None
      case Some(i) => Some(i + 1)
  }

  /** `FindHandler`: the first registered visualizer that accepts the value,
      else the default one. */
  function FindHandlerIn(entries: seq<Visualizer>, fallback: Visualizer, meta: Meta): (v: Visualizer)
    ensures FirstAccepting(entries, meta).Some? ==> v == entries[FirstAccepting(entries, meta).value]
    ensures FirstAccepting(entries, meta).None? ==> v == fallback
  {
    match FirstAccepting(entries, meta)
    case None => fallback
    case Some(i) => entries[i]
  }

  /** The registry's `Handle` over a given list and default. */
  function HandleIn(entries: seq<Visualizer>, fallback: Visualizer, meta: Meta): (r: Result<Shown>)
    ensures r == Handle(FindHandlerIn(entries, fallback, meta), meta)
  {
    Handle(FindHandlerIn(entries, fallback, meta), meta)
  }

  /** The registry's `Handle` as the function the visualizers call back
      through to show the children they list. */
  function ReHandler(entries: seq<Visualizer>, fallback: Visualizer): (reHandle: Meta -> Result<Shown>)
    ensures forall m :: reHandle(m) == HandleIn(entries, fallback, m)
  {
    m => HandleIn(entries, fallback, m)
  }

  /** Registering a visualizer after the others never changes how a value
      that one of them already accepts is shown. */
  lemma RegisterKeepsEarlier(entries: seq<Visualizer>, fallback: Visualizer, item: Visualizer, meta: Meta)
    requires FirstAccepting(entries, meta).Some?
    ensures FindHandlerIn(entries + [item], fallback, meta) == FindHandlerIn(entries, fallback, meta)
  {
    var i := FirstAccepting(entries, meta).value;
    FirstAcceptingIs(entries + [item], meta, i);
  }

  /** Position `i` is the first to accept once it accepts and none before does. */
  lemma {:induction false} FirstAcceptingIs(entries: seq<Visualizer>, meta: Meta, i: nat)
    requires i < |entries| && CanHandle(entries[i], meta)
    requires forall j :: 0 <= j < i ==> !CanHandle(entries[j], meta)
    ensures FirstAccepting(entries, meta) == Some(i)
    decreases i
  {
    if i > 0 {
      assert forall j :: 0 <= j < i - 1 ==> entries[1..][j] == entries[j + 1];
      FirstAcceptingIs(entries[1..], meta, i - 1);
    }
  }

  /** `VisualizerRegistry` of the first generation: the registered
      visualizers in order, and the default one. The default is never null,
      so every value finds a handler. */
  class LegacyRegistry {
    var registry: seq<Visualizer>
    const defaultVisualizer: Visualizer

    /** The constructor, once the null check of `NewLegacyRegistry` passed. */
    constructor (defaultVisualizer: Visualizer)
      ensures registry == [] && this.defaultVisualizer == defaultVisualizer
    {
      registry := [];
      this.defaultVisualizer := defaultVisualizer;
    }

    /** `AddVisualizer`: a null visualizer is ignored, any other appended. */
    method AddVisualizer(item: Option<Visualizer>)
      modifies this
      ensures item.None? ==> registry == old(registry)
      ensures item.Some? ==> registry == old(registry) + [item.value]
    {
      if item.None? {
        return;
      }
      registry := registry + [item.value];
    }

    /** `CanHandle`: true, since the default visualizer is set. */
    function CanHandle(meta: Meta): (r: bool)
      ensures r
    {
      true
    }

    function FindHandler(meta: Meta): (v: Visualizer)
      reads this
      ensures v == FindHandlerIn(registry, defaultVisualizer, meta)
    {
      FindHandlerIn(registry, defaultVisualizer, meta)
    }

    /** `TryHandle`: the handler's result with `true`; the handler's
      exception propagates. */
    function TryHandle(meta: Meta): (r: Result<(bool, Shown)>)
      reads this
      ensures r.Ok? <==> HandleIn(registry, defaultVisualizer, meta).Ok?
      ensures r.Ok? ==> r.value == (true, HandleIn(registry, defaultVisualizer, meta).value)
    {
      match HandleIn(registry, defaultVisualizer, meta)
      case Err(f) => Err(f)
      case Ok(shown) => Ok((true, shown))
    }

    /** `Handle`: the handler's display, exceptions included. */
    function Handle(meta: Meta): (r: Result<Shown>)
      reads this
      ensures r == HandleIn(registry, defaultVisualizer, meta)
    {
      HandleIn(registry, defaultVisualizer, meta)
    }

    /** `GetChildren`: the handler's children, each shown by this registry. */
    method GetChildren(meta: Meta) returns (r: Result<seq<(Meta, Shown)>>)
      ensures r == Children(FindHandlerIn(registry, defaultVisualizer, meta), meta, ReHandler(registry, defaultVisualizer))
    {
      var handler := FindHandler(meta);
      r := GetVisualizerChildren(handler, meta, ReHandler(registry, defaultVisualizer));
    }
  }

  /** `new VisualizerRegistry(defaultVisualizer)`, which rejects a null default. */
  method NewLegacyRegistry(defaultVisualizer: Option<Visualizer>) returns (r: Result<LegacyRegistry>)
    ensures defaultVisualizer.None? ==> r == Err(ArgumentNull("defaultVisualizer"))
    ensures r.Ok? ==> fresh(r.value) && r.value.registry == [] && r.value.defaultVisualizer == defaultVisualizer.value
    ensures defaultVisualizer.Some? ==> r.Ok?
  {
    if defaultVisualizer.None? {
      return Err(ArgumentNull("defaultVisualizer"));
    }
    var registry := new LegacyRegistry(defaultVisualizer.value);
    r := Ok(registry);
  }
}
