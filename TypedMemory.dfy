/** The typed-memory helper of the first adapter generation: typed values as
    the engine describes them, the three engine interfaces the helper is built
    from (given as functions), reading a variable's field tree with unique
    field keys, size-dispatched integer reads, and the failure sentinels of the
    raw reads. */
module TypedMemory {
  import opened Base
  import opened Text
  import opened Bytes

  /** `SymTag.PointerType`. */
  const PointerTag: nat := 14
  /** `SymTag.ArrayType`. */
  const ArrayTag: nat := 15

  /** `_DEBUG_TYPED_DATA`: where a value lives, its type, its size in bytes,
      its symbol tag and, for a value that fits in 64 bits, the value itself. */
  datatype TypedData = TypedData(modBase: nat, offset: nat, typeId: nat, size: nat, tag: nat, data: nat)

  /** `default(_DEBUG_TYPED_DATA)`. */
  const DefaultTypedData := TypedData(0, 0, 0, 0, 0, 0)

  /** Typed-data requests (`IDebugAdvanced3.Request`), together with the text
      the engine prints for the output requests. */
  datatype AdvancedApi = AdvancedApi(
    getField: (TypedData, string) -> TypedData,
    dereference: TypedData -> TypedData,
    arrayItem: (TypedData, nat) -> TypedData,
    shortValueText: TypedData -> string,
    typeDefinitionText: TypedData -> string)

  /** Virtual memory (`IDebugDataSpaces4`): whether a read of `size` bytes at
      an offset succeeds, the bytes themselves, and the UTF-8 string read,
      `None` when it fails. */
  datatype DataSpacesApi = DataSpacesApi(
    readable: (nat, nat) -> bool,
    memory: nat -> byte,
    unicodeString: (nat, nat) -> Option<string>)

  /** Symbols (`IDebugSymbols`): the field names of a type, in order, and the
      name of a type, `None` when the lookup fails. */
  datatype SymbolsApi = SymbolsApi(
    fieldNames: TypedData -> seq<string>,
    typeName: (nat, nat) -> Option<string>)

  datatype RequestHelper = RequestHelper(advanced: AdvancedApi, spaces: DataSpacesApi, symbols: SymbolsApi)

  /** `new RequestHelper(advanced, spaces, symbols)`: each interface must be
      non-null, checked in that order. */
  function NewRequestHelper(advanced: Option<AdvancedApi>, spaces: Option<DataSpacesApi>, symbols: Option<SymbolsApi>): (r: Result<RequestHelper>)
    ensures r.Ok? <==> advanced.Some? && spaces.Some? && symbols.Some?
    ensures advanced.None? ==> r == Err(ArgumentNull("advanced"))
    ensures advanced.Some? && spaces.None? ==> r == Err(ArgumentNull("spaces"))
    ensures advanced.Some? && spaces.Some? && symbols.None? ==> r == Err(ArgumentNull("symbols"))
    ensures r.Ok? ==> r.value == RequestHelper(advanced.value, spaces.value, symbols.value)
  {
    if advanced.None? then Err(ArgumentNull("advanced"))
    else if spaces.None? then Err(ArgumentNull("spaces"))
    else if symbols.None? then Err(ArgumentNull("symbols"))
    else Ok(RequestHelper(advanced.value, spaces.value, symbols.value))
  }

  // ---------------------------------------------------------------------
  // Raw reads

  /** `ReadValue`: the `size` bytes at `offset`, or an empty array when the
      read fails. */
  function ReadValue(h: RequestHelper, offset: nat, size: nat): (r: seq<byte>)
    ensures h.spaces.readable(offset, size) ==> |r| == size && forall i :: 0 <= i < size ==> r[i] == h.spaces.memory(offset + i)
    ensures !h.spaces.readable(offset, size) ==> r == []
  {
    if h.spaces.readable(offset, size) then seq(size, i requires 0 <= i < size => h.spaces.memory(offset + i)) else []
  }

  /** `ReadString`: the UTF-8 string at `offset`, or the empty string when the
      read fails. */
  function ReadString(h: RequestHelper, offset: nat, size: nat): (r: string)
    ensures h.spaces.unicodeString(offset, size).None? ==> r == ""
    ensures h.spaces.unicodeString(offset, size).Some? ==> r == h.spaces.unicodeString(offset, size).value
  {
    match h.spaces.unicodeString(offset, size)
    case None => ""
    case Some(s) => s
  }

  /** `ReadLong`: a field of 2, 4 or 8 bytes read as a signed little-endian
      integer; any other size throws. A failed read gives an empty array, on
      which the conversion throws. */
  function ReadLong(h: RequestHelper, field: TypedData): (r: Result<int>)
    ensures field.size !in {2, 4, 8} ==> r == Err(Argument("size"))
    ensures r.Ok? <==> field.size in {2, 4, 8} && h.spaces.readable(field.offset, field.size)
    ensures r.Ok? ==> -(SignBit(field.size) as int) <= r.value < SignBit(field.size)
    ensures r.Ok? ==> Encode(FromSigned(r.value, field.size), field.size) == ReadValue(h, field.offset, field.size)
  {
    if field.size == 2 || field.size == 4 || field.size == 8 then
      var bytes := ReadValue(h, field.offset, field.size);
      assert h.spaces.readable(field.offset, field.size) ==> bytes[..field.size] == bytes;
      ToSigned(bytes, field.size)
    else Err(Argument("size"))
  }

  /** Reading back a value the engine stores as 2, 4 or 8 little-endian bytes
      gives that value. */
  lemma ReadLongOfStoredValue(h: RequestHelper, field: TypedData, v: int)
    requires field.size in {2, 4, 8}
    requires -(SignBit(field.size) as int) <= v < SignBit(field.size)
    requires h.spaces.readable(field.offset, field.size)
    requires ReadValue(h, field.offset, field.size) == Encode(FromSigned(v, field.size), field.size)
    ensures ReadLong(h, field) == Ok(v)
  {
    SignedRoundTrip(v, field.size);
  }

  // ---------------------------------------------------------------------
  // Request buffers

  /** `CombineArrays(additionalInfo, baseInfo)`: the base array followed by
      the additional one. */
  function CombineArrays<T>(additionalInfo: seq<T>, baseInfo: seq<T>): (r: seq<T>)
    ensures |r| == |baseInfo| + |additionalInfo|
    ensures r[..|baseInfo|] == baseInfo && r[|baseInfo|..] == additionalInfo
  {
    baseInfo + additionalInfo
  }

  /** `ToBytes`' choice: the request bytes alone when there is no extra
      payload, the combined array otherwise. */
  function RequestBytes(structBytes: seq<byte>, additional: seq<byte>): (r: seq<byte>)
    ensures |additional| == 0 ==> r == structBytes
  {
    if |additional| == 0 then structBytes else CombineArrays(additional, structBytes)
  }

  /** Either way the request is the structure followed by the extra payload. */
  lemma RequestBytesIsConcatenation(structBytes: seq<byte>, additional: seq<byte>)
    ensures RequestBytes(structBytes, additional) == structBytes + additional
  {
    if |additional| == 0 {
      assert structBytes + additional == structBytes;
    }
  }

  // ---------------------------------------------------------------------
  // Unique field keys

  /** The `j`-th key `GetKey` tries for `base`: `base` itself, then
      `base_1`, `base_2`, ... */
  function Candidate(base: string, j: nat): (key: string)
    ensures |key| >= |base| && key[..|base|] == base
  {
    if j == 0 then base else base + "_" + NatToString(j)
  }

  /** Different attempts are different keys. */
  lemma CandidateInjective(base: string, i: nat, j: nat)
    requires Candidate(base, i) == Candidate(base, j)
    ensures i == j
  {
    if i > 0 && j > 0 {
      var n := |base| + 1;
      assert Candidate(base, i)[n..] == NatToString(i);
      assert Candidate(base, j)[n..] == NatToString(j);
      NatToStringInjective(i, j);
    }
  }

  /** The first `n` keys tried for `base`. */
  function Candidates(base: string, n: nat): (s: set<string>)
    ensures forall i :: 0 <= i < n ==> Candidate(base, i) in s
  {
    if n == 0 then {} else Candidates(base, n - 1) + {Candidate(base, n - 1)}
  }

  lemma {:induction false} CandidatesCardinality(base: string, n: nat)
    ensures |Candidates(base, n)| == n
    ensures forall k :: k in Candidates(base, n) ==> exists i :: 0 <= i < n && k == Candidate(base, i)
  {
    if n > 0 {
      CandidatesCardinality(base, n - 1);
      if Candidate(base, n - 1) in Candidates(base, n - 1) {
        var i :| 0 <= i < n - 1 && Candidate(base, n - 1) == Candidate(base, i);
        CandidateInjective(base, n - 1, i);
      }
    }
  }

  /** Only `|keys|` keys can be taken, so at most that many attempts fail. */
  lemma CandidatesTakenBound(keys: set<string>, base: string, n: nat)
    requires forall i :: 0 <= i < n ==> Candidate(base, i) in keys
    ensures n <= |keys|
  {
    CandidatesCardinality(base, n);
    assert Candidates(base, n) <= keys;
    SubsetCardinality(Candidates(base, n), keys);
  }

  lemma {:induction false} SubsetCardinality<T>(a: set<T>, b: set<T>)
    requires a <= b
    ensures |a| <= |b|
    decreases |a|
  {
    if a != {} {
      var x :| x in a;
      SubsetCardinality(a - {x}, b - {x});
    }
  }

  /** The attempt `GetKey` stops at when it has already found attempts
      before `from` taken: the first attempt from `from` on that is free. */
  function FreeIndex(keys: set<string>, base: string, from: nat): (j: nat)
    requires forall i :: 0 <= i < from ==> Candidate(base, i) in keys
    ensures from <= j && Candidate(base, j) !in keys
    ensures forall i :: 0 <= i < j ==> Candidate(base, i) in keys
    decreases |keys| - from
  {
    if Candidate(base, from) !in keys then from
    else
      CandidatesTakenBound(keys, base, from + 1);
      FreeIndex(keys, base, from + 1)
  }

  /** The key `GetKey` returns: never one already taken. */
  function FreeKey(keys: set<string>, base: string): (key: string)
    ensures key !in keys
    ensures base !in keys ==> key == base
  {
    Candidate(base, FreeIndex(keys, base, 0))
  }

  /** `GetKey`: `base` if free, else the first free `base_<n>` counting from 1. */
  method GetKey(keys: set<string>, base: string) returns (key: string)
    ensures key == FreeKey(keys, base)
  {
    key := base;
    var counter := 1;
    while key in keys
      invariant 1 <= counter <= |keys| + 1
      invariant key == Candidate(base, counter - 1)
      invariant forall i :: 0 <= i < counter - 1 ==> Candidate(base, i) in keys
      decreases |keys| + 1 - counter
    {
      CandidatesTakenBound(keys, base, counter);
      key := base + "_" + NatToString(counter);
      counter := counter + 1;
    }
  }

  /** The keys given to fields named `names`, in order: each is the free key
      for its name among the keys given before it. */
  function AssignKeys(names: seq<string>): (keys: seq<string>)
    ensures |keys| == |names|
  {
    if |names| == 0 then []
    else
      var prev := AssignKeys(names[..|names| - 1]);
      prev + [FreeKey((set k | k in prev), names[|names| - 1])]
  }

  /** Field keys are pairwise distinct, and each is its field's name or that
      name with a suffix. */
  lemma {:induction false} AssignKeysDistinct(names: seq<string>)
    ensures forall i, j :: 0 <= i < j < |names| ==> AssignKeys(names)[i] != AssignKeys(names)[j]
    ensures forall i :: 0 <= i < |names| ==> |AssignKeys(names)[i]| >= |names[i]| && AssignKeys(names)[i][..|names[i]|] == names[i]
  {
    if |names| > 0 {
      var init := names[..|names| - 1];
      AssignKeysDistinct(init);
      var prev := AssignKeys(init);
      var keys := AssignKeys(names);
      var last := |names| - 1;
      assert keys == prev + [FreeKey((set k | k in prev), names[last])];
      forall i, j | 0 <= i < j < |names|
        ensures keys[i] != keys[j]
      {
        assert keys[i] == prev[i];
        if j == last {
          assert keys[i] in set k | k in prev;
        } else {
          assert keys[j] == prev[j];
        }
      }
      forall i | 0 <= i < |names|
        ensures |keys[i]| >= |names[i]| && keys[i][..|names[i]|] == names[i]
      {
        if i < last {
          assert keys[i] == prev[i] && names[i] == init[i];
        }
      }
    }
  }

  /** A field whose name differs from every key given before it is stored
      under its own name. */
  lemma FreshNameKeptVerbatim(names: seq<string>)
    requires |names| > 0
    requires names[|names| - 1] !in AssignKeys(names[..|names| - 1])
    ensures AssignKeys(names)[|names| - 1] == names[|names| - 1]
  {
    var prev := AssignKeys(names[..|names| - 1]);
    assert names[|names| - 1] !in set k | k in prev;
  }

  // ---------------------------------------------------------------------
  // Variables

  /** `TypedVariable`: a value, its dereferenced value (the default one when it
      is not a pointer) and its fields under their keys, in order. */
  datatype TypedVariable = TypedVariable(data: TypedData, dereferenced: TypedData, fields: seq<(string, TypedVariable)>)

  /** What `ReadVariable` looks into: the pointee of a pointer, else the value. */
  function Operand(h: RequestHelper, data: TypedData): (d: TypedData)
    ensures data.tag != PointerTag ==> d == data
  {
    if data.tag == PointerTag then h.advanced.dereference(data) else data
  }

  /** The first level of `ReadVariable`'s field map: each key with the value
      of the field it was assigned to. */
  function FieldEntries(h: RequestHelper, data: TypedData): (entries: seq<(string, TypedData)>)
    ensures var names := h.symbols.fieldNames(Operand(h, data));
      && |entries| == |names|
      && forall i :: 0 <= i < |entries| ==>
           entries[i].0 == AssignKeys(names)[i] && entries[i].1 == h.advanced.getField(Operand(h, data), names[i])
  {
    var operand := Operand(h, data);
    var names := h.symbols.fieldNames(operand);
    var keys := AssignKeys(names);
    seq(|names|, i requires 0 <= i < |names| => (keys[i], h.advanced.getField(operand, names[i])))
  }

  /** The key and value of each field read. */
  function Shape(fields: seq<(string, TypedVariable)>): seq<(string, TypedData)> {
    seq(|fields|, j requires 0 <= j < |fields| => (fields[j].0, fields[j].1.data))
  }

  /** Each name's key paired with the value of the field of that name. */
  function FieldPairs(h: RequestHelper, operand: TypedData, keys: seq<string>, names: seq<string>): seq<(string, TypedData)>
    requires |keys| == |names|
  {
    seq(|names|, j requires 0 <= j < |names| => (keys[j], h.advanced.getField(operand, names[j])))
  }

  lemma ShapeSnoc(fields: seq<(string, TypedVariable)>, key: string, child: TypedVariable)
    ensures Shape(fields + [(key, child)]) == Shape(fields) + [(key, child.data)]
  {
    assert forall j :: 0 <= j < |fields| ==> (fields + [(key, child)])[j] == fields[j];
  }

  lemma FieldPairsSnoc(h: RequestHelper, operand: TypedData, keys: seq<string>, key: string, names: seq<string>)
    requires |keys| < |names|
    ensures FieldPairs(h, operand, keys + [key], names[..|keys| + 1])
      == FieldPairs(h, operand, keys, names[..|keys|]) + [(key, h.advanced.getField(operand, names[|keys|]))]
  {
  }

  lemma FieldPairsAreEntries(h: RequestHelper, data: TypedData)
    ensures var names := h.symbols.fieldNames(Operand(h, data));
      FieldPairs(h, Operand(h, data), AssignKeys(names), names) == FieldEntries(h, data)
  {
  }

  /** Whether `ReadVariable`'s recursion over the field tree of `data` ends
      within `fuel` nested reads: a value without fields needs none, one with
      fields needs one more than each of its fields. */
  predicate ReadsWithin(h: RequestHelper, data: TypedData, fuel: nat)
    decreases fuel
  {
    var operand := Operand(h, data);
    var names := h.symbols.fieldNames(operand);
    |names| == 0
    || (fuel > 0 && forall i :: 0 <= i < |names| ==> ReadsWithin(h, h.advanced.getField(operand, names[i]), fuel - 1))
  }

  /** The depth of nested reads the thread's stack holds; the source has no
      bound of its own, the stack is it. Its value is arbitrary: the lemmas
      below hold for every depth. */
  const StackDepth: nat := 10000

  /** Whether reading the field tree of `data` ends before the stack does. */
  predicate ReadFinishes(h: RequestHelper, data: TypedData) {
    ReadsWithin(h, data, StackDepth)
  }

  /** The first level of the field tree `ReadVariable` reads with the whole
      stack, or the stack overflow it ends in: what a visualizer gets from
      `_helper.ReadVariable(entry)`. */
  function ReadFields(h: RequestHelper, data: TypedData): (r: Result<seq<(string, TypedData)>>)
    ensures r.Ok? <==> ReadFinishes(h, data)
    ensures r.Err? ==> r == Err(StackOverflow)
  {
    if ReadFinishes(h, data) then Ok(FieldEntries(h, data)) else Err(StackOverflow)
  }

  /** A type that holds itself, through a pointer or not (`enum List {
      Cons(i32, Box<List>), Nil }`), is never read to the end: whatever the
      depth, the read overflows the stack. */
  lemma {:induction false} SelfContainingNeverRead(h: RequestHelper, data: TypedData, i: nat, fuel: nat)
    requires i < |h.symbols.fieldNames(Operand(h, data))|
    requires Operand(h, h.advanced.getField(Operand(h, data), h.symbols.fieldNames(Operand(h, data))[i])) == Operand(h, data)
    ensures !ReadsWithin(h, data, fuel)
    decreases fuel
  {
    var operand := Operand(h, data);
    var names := h.symbols.fieldNames(operand);
    var field := h.advanced.getField(operand, names[i]);
    if fuel > 0 {
      SelfContainingNeverRead(h, field, i, fuel - 1);
      assert !ReadsWithin(h, field, fuel - 1);
    }
  }

  /** A read that ends within some depth ends within any larger one. */
  lemma {:induction false} ReadsWithinMonotone(h: RequestHelper, data: TypedData, fuel: nat, more: nat)
    requires fuel <= more && ReadsWithin(h, data, fuel)
    ensures ReadsWithin(h, data, more)
    decreases fuel
  {
    var operand := Operand(h, data);
    var names := h.symbols.fieldNames(operand);
    if |names| > 0 {
      forall j | 0 <= j < |names|
        ensures ReadsWithin(h, h.advanced.getField(operand, names[j]), more - 1)
      {
        ReadsWithinMonotone(h, h.advanced.getField(operand, names[j]), fuel - 1, more - 1);
      }
    }
  }

  /** `tv` is a field tree as `ReadVariable` builds it at every level: the
      dereferenced value is the pointee of a pointer and the default value
      otherwise, the fields are the keys and values `FieldEntries` gives, and
      every field is itself such a tree. */
  predicate WellRead(h: RequestHelper, tv: TypedVariable)
    decreases tv
  {
    && tv.dereferenced == (if tv.data.tag == PointerTag then h.advanced.dereference(tv.data) else DefaultTypedData)
    && Shape(tv.fields) == FieldEntries(h, tv.data)
    && forall j :: 0 <= j < |tv.fields| ==> WellRead(h, tv.fields[j].1)
  }

  /** A field tree read as `ReadVariable` reads it is determined by the value
      it starts from. */
  lemma {:induction false} WellReadUnique(h: RequestHelper, a: TypedVariable, b: TypedVariable)
    requires WellRead(h, a) && WellRead(h, b) && a.data == b.data
    ensures a == b
    decreases a
  {
    assert |a.fields| == |Shape(a.fields)| == |Shape(b.fields)| == |b.fields|;
    forall j | 0 <= j < |a.fields|
      ensures a.fields[j] == b.fields[j]
    {
      assert Shape(a.fields)[j] == Shape(b.fields)[j];
      WellReadUnique(h, a.fields[j].1, b.fields[j].1);
    }
    assert a.fields == b.fields;
  }

  /** One more field read as `ReadVariable` reads it keeps every field so. */
  lemma WellReadSnoc(h: RequestHelper, fields: seq<(string, TypedVariable)>, key: string, child: TypedVariable)
    requires forall j :: 0 <= j < |fields| ==> WellRead(h, fields[j].1)
    requires WellRead(h, child)
    ensures forall j :: 0 <= j < |fields + [(key, child)]| ==> WellRead(h, (fields + [(key, child)])[j].1)
  {
    forall j | 0 <= j < |fields + [(key, child)]|
      ensures WellRead(h, (fields + [(key, child)])[j].1)
    {
      if j < |fields| {
        assert (fields + [(key, child)])[j] == fields[j];
      }
    }
  }

  /** A value whose fields are all read as `ReadVariable` reads them, with the
      right dereferenced value and first level, is so read itself. */
  lemma WellReadOf(h: RequestHelper, data: TypedData, dereferenced: TypedData, fields: seq<(string, TypedVariable)>)
    requires dereferenced == (if data.tag == PointerTag then h.advanced.dereference(data) else DefaultTypedData)
    requires Shape(fields) == FieldEntries(h, data)
    requires forall j :: 0 <= j < |fields| ==> WellRead(h, fields[j].1)
    ensures WellRead(h, TypedVariable(data, dereferenced, fields))
  {
  }

  /** `ReadVariable`: dereferences a pointer first, then reads every field of
      the result recursively, storing each under the key `GetKey` gives it, so
      that its first level is `FieldEntries`. The source recurses without
      bound; `fuel` bounds the depth and `StackOverflow` stands for running
      out, which happens exactly when the tree is deeper than `fuel`. */
  method ReadVariable(h: RequestHelper, data: TypedData, fuel: nat) returns (r: Result<TypedVariable>)
    ensures r.Ok? <==> ReadsWithin(h, data, fuel)
    ensures r.Err? ==> r == Err(StackOverflow)
    ensures r.Ok? ==> r.value.data == data
    ensures r.Ok? ==> r.value.dereferenced == (if data.tag == PointerTag then h.advanced.dereference(data) else DefaultTypedData)
    ensures r.Ok? ==> Shape(r.value.fields) == FieldEntries(h, data)
    ensures r.Ok? ==> WellRead(h, r.value)
    decreases fuel
  {
    var dereferenced := DefaultTypedData;
    if data.tag == PointerTag {
      dereferenced := h.advanced.dereference(data);
    }
    var operand := if data.tag == PointerTag then dereferenced else data;
    var names := h.symbols.fieldNames(operand);
    var keys: seq<string> := [];
    var fields: seq<(string, TypedVariable)> := [];
    var i := 0;
    while i < |names|
      invariant 0 <= i <= |names|
      invariant |keys| == i && keys == AssignKeys(names[..i])
      invariant Shape(fields) == FieldPairs(h, operand, keys, names[..i])
      invariant i > 0 ==> fuel > 0
      invariant fuel > 0 ==> forall j :: 0 <= j < i ==> ReadsWithin(h, h.advanced.getField(operand, names[j]), fuel - 1)
      invariant forall j :: 0 <= j < |fields| ==> WellRead(h, fields[j].1)
    {
      if fuel == 0 {
        return Err(StackOverflow);
      }
      var child := ReadVariable(h, h.advanced.getField(operand, names[i]), fuel - 1);
      if child.Err? {
        return Err(StackOverflow);
      }
      var key := NextKey(names, i, keys);
      ShapeSnoc(fields, key, child.value);
      FieldPairsSnoc(h, operand, keys, key, names);
      WellReadSnoc(h, fields, key, child.value);
      keys := keys + [key];
      fields := fields + [(key, child.value)];
      i := i + 1;
    }
    assert names[..i] == names;
    FieldPairsAreEntries(h, data);
    WellReadOf(h, data, dereferenced, fields);
    return Ok(TypedVariable(data, dereferenced, fields));
  }

  /** The key `ReadVariable` gives the `i`-th field, given the keys of the
      fields before it. */
  method NextKey(names: seq<string>, i: nat, keys: seq<string>) returns (key: string)
    requires i < |names| && keys == AssignKeys(names[..i])
    ensures keys + [key] == AssignKeys(names[..i + 1])
  {
    key := GetKey((set k | k in keys), names[i]);
    AssignKeysStep(names, i);
  }

  lemma AssignKeysStep(names: seq<string>, i: nat)
    requires i < |names|
    ensures AssignKeys(names[..i + 1]) == AssignKeys(names[..i]) + [FreeKey((set k | k in AssignKeys(names[..i])), names[i])]
  {
    assert names[..i + 1][..i] == names[..i];
  }
}
