/** The visualizers of the second adapter generation: the registry that
    falls back from the chosen visualizer to the default one and then to a
    fixed sentinel, the common base with its guarded array length, and the
    Rust `String`/`&str` and encoded-enum visualizers. A visualizer is known
    to the registry only through its three operations, each of which may
    throw. */
module VisualizerChain {
  import opened Base
  import opened Text
  import opened Bytes
  import opened TypedMemory
  import opened Visualization

  /** `IVisualizer`: whether it accepts a value, how it shows it, and the
      values it lists below it (`null` being `None`). */
  datatype Visualizer = Visualizer(
    canHandle: Meta -> Result<bool>,
    handle: Meta -> Result<Shown>,
    children: Meta -> Result<Option<seq<Meta>>>)

  /** What the registry shows when no visualizer manages to show a value. */
  const CouldNotIdentify := Shown("<could not identify value>", false)

  // ---------------------------------------------------------------------
  // VisualizerBase

  /** The base constructor: a null helper, then a null symbols interface,
      is rejected. */
  function NewVisualizerBase(helper: Option<RequestHelper>, symbols: Option<SymbolsApi>): (r: Result<(RequestHelper, SymbolsApi)>)
    ensures r.Ok? <==> helper.Some? && symbols.Some?
    ensures helper.None? ==> r == Err(ArgumentNull("helper"))
    ensures helper.Some? && symbols.None? ==> r == Err(ArgumentNull("symbols"))
    ensures r.Ok? ==> r.value == (helper.value, symbols.value)
  {
    if helper.None? then Err(ArgumentNull("helper"))
    else if symbols.None? then Err(ArgumentNull("symbols"))
    else Ok((helper.value, symbols.value))
  }

  /** `GetArrayLength`: how many whole elements fit in the array; an element
      size of zero gives no elements instead of dividing by zero. */
  function GetArrayLength(h: RequestHelper, data: TypedData): (n: nat)
    ensures h.advanced.dereference(data).size == 0 ==> n == 0
    ensures var itemSize := h.advanced.dereference(data).size;
      itemSize > 0 ==> n * itemSize <= data.size < (n + 1) * itemSize
  {
    var itemSize := h.advanced.dereference(data).size;
    if itemSize == 0 then 0 else data.size / itemSize
  }

  // ---------------------------------------------------------------------
  // VisualizerRegistry

  /** `_registry.FirstOrDefault(x => x.CanHandle(description))`: the position
      of the first visualizer that accepts the value, or `None`. The
      predicates are asked in order, and the first that throws ends the
      search with its exception. */
  function FirstAccepting(entries: seq<Visualizer>, meta: Meta): (r: Result<Option<nat>>)
    ensures r.Ok? && r.value.Some? ==>
      && r.value.value < |entries|
      && entries[r.value.value].canHandle(meta) == Ok(true)
      && forall j :: 0 <= j < r.value.value ==> entries[j].canHandle(meta) == Ok(false)
    ensures r.Ok? && r.value.None? ==> forall j :: 0 <= j < |entries| ==> entries[j].canHandle(meta) == Ok(false)
    ensures r.Err? ==> exists j :: 0 <= j < |entries| && entries[j].canHandle(meta) == Err(r.fault)
    decreases |entries|
  {
    if |entries| == 0 then Ok(None)
    else match entries[0].canHandle(meta)
      case Err(f) => Err(f)
      case Ok(true) => Ok(Some(0))
      case Ok(false) =>
        match FirstAccepting(entries[1..], meta)
        case Err(f) =>
          assert exists j :: 0 <= j < |entries| - 1 && entries[1..][j].canHandle(meta) == Err(f);
          Err(f)
        case Ok(None) => Ok(None)
        case Ok(Some(i)) => Ok(Some(i + 1))
  }

  /** No visualizer's predicate throws for `meta`. */
  predicate Decides(entries: seq<Visualizer>, meta: Meta) {
    forall i :: 0 <= i < |entries| ==> entries[i].canHandle(meta).Ok?
  }

  /** `FindHandler`: the first registered visualizer that accepts the value,
      else the default one. */
  function FindHandlerIn(entries: seq<Visualizer>, fallback: Visualizer, meta: Meta): (r: Result<Visualizer>)
    ensures r.Ok? <==> FirstAccepting(entries, meta).Ok?
    ensures Decides(entries, meta) ==> r.Ok?
    ensures r.Ok? && FirstAccepting(entries, meta).value.Some? ==> r.value == entries[FirstAccepting(entries, meta).value.value]
    ensures r.Ok? && FirstAccepting(entries, meta).value.None? ==> r.value == fallback
  {
    match FirstAccepting(entries, meta)
    case Err(f) => Err(f)
    case Ok(None) => Ok(fallback)
    case Ok(Some(i)) => Ok(entries[i])
  }

  /** `TryHandle`: the handler's display; when it throws, the default
      visualizer's; when that throws as well, the sentinel and `false`. Only
      an exception from a `CanHandle` predicate escapes. */
  function TryHandleIn(entries: seq<Visualizer>, fallback: Visualizer, meta: Meta): (r: Result<(bool, Shown)>)
    ensures r.Ok? <==> FindHandlerIn(entries, fallback, meta).Ok?
    ensures r.Ok? && FindHandlerIn(entries, fallback, meta).value.handle(meta).Ok? ==>
      r.value == (true, FindHandlerIn(entries, fallback, meta).value.handle(meta).value)
    ensures r.Ok? && FindHandlerIn(entries, fallback, meta).value.handle(meta).Err? && fallback.handle(meta).Ok? ==>
      r.value == (true, fallback.handle(meta).value)
    ensures r.Ok? && FindHandlerIn(entries, fallback, meta).value.handle(meta).Err? && fallback.handle(meta).Err? ==>
      r.value == (false, CouldNotIdentify)
  {
    match FindHandlerIn(entries, fallback, meta)
    case Err(f) => Err(f)
    case Ok(handler) =>
      match handler.handle(meta)
      case Ok(shown) => Ok((true, shown))
      case Err(_) =>
        match fallback.handle(meta)
        case Ok(shown) => Ok((true, shown))
        case Err(_) => Ok((false, CouldNotIdentify))
  }

  /** `Handle`: what `TryHandle` produced, or the sentinel when it reports
      failure. */
  function HandleIn(entries: seq<Visualizer>, fallback: Visualizer, meta: Meta): (r: Result<Shown>)
    ensures r.Ok? <==> TryHandleIn(entries, fallback, meta).Ok?
    ensures r.Ok? ==> r.value == TryHandleIn(entries, fallback, meta).value.1
  {
    match TryHandleIn(entries, fallback, meta)
    case Err(f) => Err(f)
    case Ok((true, shown)) => Ok(shown)
    case Ok((false, _)) => Ok(CouldNotIdentify)
  }

  /** A failure to decode never escapes `Handle`: as long as the predicates
      decide, the value shown is the handler's, else the default's, else the
      sentinel, and the sentinel only when both visualizers threw. */
  lemma HandleFallsBack(entries: seq<Visualizer>, fallback: Visualizer, meta: Meta)
    requires Decides(entries, meta)
    ensures HandleIn(entries, fallback, meta).Ok?
    ensures var handler := FindHandlerIn(entries, fallback, meta).value;
      var shown := HandleIn(entries, fallback, meta).value;
      && (handler.handle(meta).Ok? ==> shown == handler.handle(meta).value)
      && (handler.handle(meta).Err? && fallback.handle(meta).Ok? ==> shown == fallback.handle(meta).value)
      && (handler.handle(meta).Err? && fallback.handle(meta).Err? ==> shown == CouldNotIdentify)
  {
  }

  /** `TryHandle` reports failure exactly when it settles on the sentinel
      because both visualizers threw. */
  lemma TryHandleFails(entries: seq<Visualizer>, fallback: Visualizer, meta: Meta)
    requires TryHandleIn(entries, fallback, meta).Ok?
    ensures !TryHandleIn(entries, fallback, meta).value.0 <==>
      FindHandlerIn(entries, fallback, meta).value.handle(meta).Err? && fallback.handle(meta).Err?
    ensures !TryHandleIn(entries, fallback, meta).value.0 ==> TryHandleIn(entries, fallback, meta).value.1 == CouldNotIdentify
  {
  }

  /** The registry's `Handle`, as the function children are shown with. */
  function ReHandler(entries: seq<Visualizer>, fallback: Visualizer): (reHandle: Meta -> Result<Shown>)
    ensures forall m :: reHandle(m) == HandleIn(entries, fallback, m)
  {
    m => HandleIn(entries, fallback, m)
  }

  /** `GetChildren`: the handler's children, each shown by the registry; a
      null list, or any exception on the way (finding the handler, listing
      the children, showing one of them), gives no children at all. */
  function ChildrenIn(entries: seq<Visualizer>, fallback: Visualizer, meta: Meta): (r: seq<(Meta, Shown)>)
    ensures FindHandlerIn(entries, fallback, meta).Err? ==> r == []
    ensures FindHandlerIn(entries, fallback, meta).Ok? ==>
      var listed := FindHandlerIn(entries, fallback, meta).value.children(meta);
      && (listed.Err? || listed.value.None? ==> r == [])
      && (listed.Ok? && listed.value.Some? ==>
            r == (match Resolved(listed.value.value, ReHandler(entries, fallback))
                  case Err(_) => []
                  case Ok(pairs) => pairs))
  {
    match FindHandlerIn(entries, fallback, meta)
    case Err(_) => []
    case Ok(handler) =>
      match handler.children(meta)
      case Err(_) => []
      case Ok(None) => []
      case Ok(Some(metas)) =>
        match Resolved(metas, ReHandler(entries, fallback))
        case Err(_) => []
        case Ok(pairs) => pairs
  }

  /** When the handler lists children and no predicate throws for any of
      them, every child appears, in order, with what `Handle` shows for it. */
  lemma ChildrenComplete(entries: seq<Visualizer>, fallback: Visualizer, meta: Meta, metas: seq<Meta>)
    requires FindHandlerIn(entries, fallback, meta).Ok?
    requires FindHandlerIn(entries, fallback, meta).value.children(meta) == Ok(Some(metas))
    requires forall i :: 0 <= i < |metas| ==> Decides(entries, metas[i])
    ensures var r := ChildrenIn(entries, fallback, meta);
      && |r| == |metas|
      && forall i :: 0 <= i < |metas| ==> r[i] == (metas[i], HandleIn(entries, fallback, metas[i]).value)
  {
    var reHandle := ReHandler(entries, fallback);
    forall i | 0 <= i < |metas|
      ensures reHandle(metas[i]).Ok?
    {
      HandleFallsBack(entries, fallback, metas[i]);
    }
    ResolvedPairs(metas, reHandle);
  }

  /** Registering a visualizer after the others never changes which handler
      a value that one of them accepts gets. */
  lemma RegisterKeepsEarlier(entries: seq<Visualizer>, fallback: Visualizer, item: Visualizer, meta: Meta)
    requires FirstAccepting(entries, meta).Ok? && FirstAccepting(entries, meta).value.Some?
    ensures FindHandlerIn(entries + [item], fallback, meta) == FindHandlerIn(entries, fallback, meta)
  {
    FirstAcceptingExtends(entries, [item], meta);
  }

  /** A search that ends within `entries` ends the same way whatever follows. */
  lemma {:induction false} FirstAcceptingExtends(entries: seq<Visualizer>, more: seq<Visualizer>, meta: Meta)
    requires FirstAccepting(entries, meta).Err? || FirstAccepting(entries, meta).value.Some?
    ensures FirstAccepting(entries + more, meta) == FirstAccepting(entries, meta)
    decreases |entries|
  {
    assert |entries| > 0;
    assert (entries + more)[0] == entries[0];
    if entries[0].canHandle(meta) == Ok(false) {
      assert (entries + more)[1..] == entries[1..] + more;
      FirstAcceptingExtends(entries[1..], more, meta);
    }
  }

  /** `VisualizerRegistry` of the second generation. */
  class VisualizerRegistry {
    var registry: seq<Visualizer>
    const defaultVisualizer: Visualizer

    constructor (defaultVisualizer: Visualizer)
      ensures registry == [] && this.defaultVisualizer == defaultVisualizer
    {
      registry := [];
      this.defaultVisualizer := defaultVisualizer;
    }

    /** `AddVisualizer`: a null visualizer is ignored, any other appended. */
    method AddVisualizer(item: Option<Visualizer>)
      modifies this
      ensures item.None? ==> registry == old(registry)
      ensures item.Some? ==> registry == old(registry) + [item.value]
    {
      if item.None? {
        return;
      }
      registry := registry + [item.value];
    }

    /** `CanHandle`: true, since the default visualizer is set. */
    function CanHandle(description: Meta): (r: bool)
      ensures r
    {
      true
    }

    function TryHandle(description: Meta): (r: Result<(bool, Shown)>)
      reads this
      ensures r == TryHandleIn(registry, defaultVisualizer, description)
    {
      TryHandleIn(registry, defaultVisualizer, description)
    }

    function Handle(description: Meta): (r: Result<Shown>)
      reads this
      ensures r == HandleIn(registry, defaultVisualizer, description)
    {
      HandleIn(registry, defaultVisualizer, description)
    }

    /** The loop over the listed children, each shown by the registry. */
    method GetChildren(description: Meta) returns (result: seq<(Meta, Shown)>)
      ensures result == ChildrenIn(registry, defaultVisualizer, description)
    {
      var handler := FindHandlerIn(registry, defaultVisualizer, description);
      if handler.Err? {
        return [];
      }
      var metas := handler.value.children(description);
      if metas.Err? || metas.value.None? {
        return [];
      }
      var resolved := ResolveAll(metas.value.value, ReHandler(registry, defaultVisualizer));
      if resolved.Err? {
        return [];
      }
      result := resolved.value;
    }
  }

  /** `new VisualizerRegistry(defaultVisualizer)`, which rejects a null default. */
  method NewVisualizerRegistry(defaultVisualizer: Option<Visualizer>) returns (r: Result<VisualizerRegistry>)
    ensures defaultVisualizer.None? ==> r == Err(ArgumentNull("defaultVisualizer"))
    ensures defaultVisualizer.Some? ==> r.Ok?
    ensures r.Ok? ==> fresh(r.value) && r.value.registry == [] && r.value.defaultVisualizer == defaultVisualizer.value
  {
    if defaultVisualizer.None? {
      return Err(ArgumentNull("defaultVisualizer"));
    }
    var registry := new VisualizerRegistry(defaultVisualizer.value);
    r := Ok(registry);
  }

  // ---------------------------------------------------------------------
  // RustStringVisualizer

  /** `DebuggedProcessInfo`: whether the debuggee is a 64-bit process. */
  datatype ProcessInfo = ProcessInfo(is64BitProcess: bool)

  function PointerSize(info: ProcessInfo): (size: nat)
    ensures size == 4 || size == 8
    ensures size == 8 <==> info.is64BitProcess
  {
    if info.is64BitProcess then 8 else 4
  }

  const StrTypeName := "struct &str"
  const DynamicStringTypeName := "string::String"
  const ShortStrTypeName := "&str"

  /** `CanHandle`: either `&str` spelling ignoring case, or any type whose
      name contains `string::String`, case-sensitively. */
  function StringCanHandle(meta: Meta): (r: bool)
    ensures r <==>
      || Folded(meta.typeName) in {Folded(StrTypeName), Folded(ShortStrTypeName)}
      || exists i :: OccursAt(meta.typeName, i, DynamicStringTypeName)
  {
    EqualsIgnoringCase(meta.typeName, StrTypeName);
    EqualsIgnoringCase(meta.typeName, ShortStrTypeName);
    ContainsOccurs(meta.typeName, DynamicStringTypeName);
    || EqualsCmp(meta.typeName, StrTypeName, OrdinalIgnoreCase)
    || Contains(meta.typeName, DynamicStringTypeName)
    || EqualsCmp(meta.typeName, ShortStrTypeName, OrdinalIgnoreCase)
  }

  /** `ReadString(container, length)`: the address of the characters is the
      first pointer-sized word of the container, read as a 32- or 64-bit
      unsigned integer after the process's bitness; the length is truncated
      to 32 bits. */
  function ReadStringAt(h: RequestHelper, info: ProcessInfo, container: TypedData, length: nat): (r: Result<string>)
    ensures r.Ok? <==> h.spaces.readable(container.offset, PointerSize(info))
    ensures r.Ok? ==>
      var pointer := ToUnsigned(ReadValue(h, container.offset, PointerSize(info)), PointerSize(info)).value;
      && pointer < Pow256(PointerSize(info))
      && r.value == ReadString(h, pointer, length % UInt32Modulus)
  {
    match ToUnsigned(ReadValue(h, container.offset, PointerSize(info)), PointerSize(info))
    case Err(f) => Err(f)
    case Ok(pointer) => Ok(ReadString(h, pointer, length % UInt32Modulus))
  }

  /** `ReadStaticString`: the length is the `length` field, the container
      the value itself. */
  function StaticString(h: RequestHelper, info: ProcessInfo, meta: Meta): (r: Result<string>)
    ensures !ReadFinishes(h, meta.entry) ==> r == Err(StackOverflow)
    ensures ReadFinishes(h, meta.entry) && FieldNamed(FieldEntries(h, meta.entry), "length").Err? ==> r == Err(KeyNotFound("length"))
    ensures ReadFinishes(h, meta.entry) && FieldNamed(FieldEntries(h, meta.entry), "length").Ok? ==>
      r == ReadStringAt(h, info, meta.entry, FieldNamed(FieldEntries(h, meta.entry), "length").value.data)
  {
    match ReadFields(h, meta.entry)
    case Err(f) => Err(f)
    case Ok(fields) =>
      match FieldNamed(fields, "length")
      case Err(f) => Err(f)
      case Ok(length) => ReadStringAt(h, info, meta.entry, length.data)
  }

  /** `ReadPointerString`: within the first field, the `len` field is the
      length and the `buf` field the container; a missing field throws, the
      first field before `len` before `buf`. The fields of the first field
      are those the one recursive read of the value already read. */
  function DynamicString(h: RequestHelper, info: ProcessInfo, meta: Meta): (r: Result<string>)
    ensures !ReadFinishes(h, meta.entry) ==> r == Err(StackOverflow)
    ensures ReadFinishes(h, meta.entry) && |FieldEntries(h, meta.entry)| == 0 ==> r == Err(InvalidOperation)
    ensures ReadFinishes(h, meta.entry) && |FieldEntries(h, meta.entry)| > 0 ==>
      var inner := FieldEntries(h, FieldEntries(h, meta.entry)[0].1);
      && (FieldNamed(inner, "len").Err? ==> r == Err(KeyNotFound("len")))
      && (FieldNamed(inner, "len").Ok? && FieldNamed(inner, "buf").Err? ==> r == Err(KeyNotFound("buf")))
      && (FieldNamed(inner, "len").Ok? && FieldNamed(inner, "buf").Ok? ==>
            r == ReadStringAt(h, info, FieldNamed(inner, "buf").value, FieldNamed(inner, "len").value.data))
  {
    match ReadFields(h, meta.entry)
    case Err(f) => Err(f)
    case Ok(fields) =>
      match FirstField(fields)
      case Err(f) => Err(f)
      case Ok(first) =>
        var inner := FieldEntries(h, first.1);
        match FieldNamed(inner, "len")
        case Err(f) => Err(f)
        case Ok(length) =>
          match FieldNamed(inner, "buf")
          case Err(f) => Err(f)
          case Ok(container) => ReadStringAt(h, info, container, length.data)
  }

  /** `Handle`: types ending in `string::String` are read as an owned string,
      all other accepted types as a `&str`; the text is quoted and never has
      children. */
  function StringHandle(h: RequestHelper, info: ProcessInfo, meta: Meta): (r: Result<Shown>)
    ensures !StringCanHandle(meta) ==> r == Err(Argument("meta"))
    ensures StringCanHandle(meta) ==>
      var text := if EndsWith(meta.typeName, DynamicStringTypeName, Ordinal) then DynamicString(h, info, meta) else StaticString(h, info, meta);
      && (r.Ok? <==> text.Ok?)
      && (r.Ok? ==> r.value == Shown(Enquote(text.value), false))
  {
    if !StringCanHandle(meta) then Err(Argument("meta"))
    else
      var text := if EndsWith(meta.typeName, DynamicStringTypeName, Ordinal) then DynamicString(h, info, meta) else StaticString(h, info, meta);
      match text
      case Err(f) => Err(f)
      case Ok(s) => Ok(Shown(Enquote(s), false))
  }

  /** Only types accepted for containing `string::String` can take the owned
      path; both `&str` spellings are too short to end in it. */
  lemma StringPathChoice(meta: Meta)
    requires StringCanHandle(meta)
    ensures EndsWith(meta.typeName, DynamicStringTypeName, Ordinal) ==> Contains(meta.typeName, DynamicStringTypeName)
    ensures EqualsCmp(meta.typeName, StrTypeName, OrdinalIgnoreCase) || EqualsCmp(meta.typeName, ShortStrTypeName, OrdinalIgnoreCase) ==>
      !EndsWith(meta.typeName, DynamicStringTypeName, Ordinal)
  {
    if EndsWith(meta.typeName, DynamicStringTypeName, Ordinal) {
      EndsWithContains(meta.typeName, DynamicStringTypeName);
    }
  }

  /** The visualizer as the registry sees it; its predicate never throws and
      it has no children. */
  function StringVisualizer(h: RequestHelper, info: ProcessInfo): (v: Visualizer)
    ensures forall m :: v.canHandle(m) == Ok(StringCanHandle(m))
    ensures forall m :: v.handle(m) == StringHandle(h, info, m)
    ensures forall m :: v.children(m) == Ok(Some([]))
  {
    Visualizer(m => Ok(StringCanHandle(m)), m => StringHandle(h, info, m), m => Ok(Some([])))
  }

  // ---------------------------------------------------------------------
  // RustEncodedEnumVisualizer

  /** The encoded-enum visualizer as the registry sees it: `CanHandle`,
      `Handle` and the single `inner` child, whose reading may throw only
      once the registry enumerates it. */
  function EncodedEnumVisualizer(h: RequestHelper, symbols: SymbolsApi): (v: Visualizer)
    ensures forall m :: v.canHandle(m) == Ok(EncodedEnumCanHandle(h, m))
    ensures forall m :: v.handle(m) == EncodedEnumHandle(h, m)
    ensures forall m: Meta :: !ReadFinishes(h, m.entry) ==> v.children(m) == Err(StackOverflow)
    ensures forall m: Meta :: ReadFinishes(h, m.entry) && |FieldEntries(h, m.entry)| == 0 ==> v.children(m) == Err(InvalidOperation)
    ensures forall m: Meta :: ReadFinishes(h, m.entry) && |FieldEntries(h, m.entry)| > 0 ==>
      v.children(m) == Ok(Some([Meta("inner", GetTypeName(symbols, FieldEntries(h, m.entry)[0].1), FieldEntries(h, m.entry)[0].1)]))
  {
    Visualizer(
      m => Ok(EncodedEnumCanHandle(h, m)),
      m => EncodedEnumHandle(h, m),
      m => match EncodedEnumChild(h, symbols, m)
           case Err(f) => Err(f)
           case Ok(child) => Ok(Some([child])))
  }

  /** When the encoded-enum visualizer handles a value whose fields cannot be
      read, the registry lists no children rather than failing. */
  lemma EncodedEnumUnreadableNoChildren(h: RequestHelper, symbols: SymbolsApi, entries: seq<Visualizer>,
                                         fallback: Visualizer, meta: Meta)
    requires FindHandlerIn(entries, fallback, meta) == Ok(EncodedEnumVisualizer(h, symbols))
    requires ReadFinishes(h, meta.entry) && |FieldEntries(h, meta.entry)| == 0
    ensures ChildrenIn(entries, fallback, meta) == []
  {
  }
}
