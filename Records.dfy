/** The small validated records: breakpoints, debuggee threads, scopes, the
    protocol's thread record and the table of scope names. A record's
    properties have private setters in the source, so each is an immutable
    datatype built by a checked constructor function. */
module Records {
  import opened Base
  import opened Text

  // ---------------------------------------------------------------------
  // Breakpoint

  datatype Breakpoint = Breakpoint(file: string, line: int)

  /** `new Breakpoint(file, line)`: a blank file name is rejected first, then a
      line that is not positive. */
  function NewBreakpoint(file: Option<string>, line: int): (r: Result<Breakpoint>)
    ensures r.Ok? <==> !IsNullOrWhiteSpace(file) && line > 0
    ensures IsNullOrWhiteSpace(file) ==> r == Err(ArgumentNull("file"))
    ensures !IsNullOrWhiteSpace(file) && line <= 0 ==> r == Err(ArgumentOutOfRange("line"))
    ensures r.Ok? ==> r.value == Breakpoint(file.value, line)
  {
    if IsNullOrWhiteSpace(file) then Err(ArgumentNull("file"))
    else if line <= 0 then Err(ArgumentOutOfRange("line"))
    else Ok(Breakpoint(file.value, line))
  }

  // ---------------------------------------------------------------------
  // Threads

  /** `Thread #<id>`, the name given to a thread that has none. */
  function DefaultThreadName(id: int): (name: string)
    ensures |name| > |"Thread #"| && name[..|"Thread #"|] == "Thread #"
  {
    "Thread #" + IntToString(id)
  }

  /** Different ids give different default names. */
  lemma DefaultThreadNameInjective(a: int, b: int)
    requires DefaultThreadName(a) == DefaultThreadName(b)
    ensures a == b
  {
    var p := |"Thread #"|;
    assert IntToString(a) == DefaultThreadName(a)[p..];
    assert IntToString(b) == DefaultThreadName(b)[p..];
    var sa, sb := IntToString(a), IntToString(b);
    if a < 0 && b < 0 {
      assert sa[1..] == NatToString(-a) && sb[1..] == NatToString(-b);
      NatToStringInjective(-a, -b);
    } else if a >= 0 && b >= 0 {
      NatToStringInjective(a, b);
    }
  }

  datatype DebuggeeThread = DebuggeeThread(id: int, name: string)

  /** `new DebuggeeThread(id, name)`: a non-positive id is rejected and a blank
      name replaced by the default one. */
  function NewDebuggeeThread(id: int, name: Option<string>): (r: Result<DebuggeeThread>)
    ensures r.Ok? <==> id > 0
    ensures id <= 0 ==> r == Err(Argument("id"))
    ensures r.Ok? ==> r.value.id == id
    ensures r.Ok? && IsNullOrWhiteSpace(name) ==> r.value.name == DefaultThreadName(id)
    ensures r.Ok? && !IsNullOrWhiteSpace(name) ==> r.value.name == name.value
  {
    if id <= 0 then Err(Argument("id"))
    else if IsNullOrWhiteSpace(name) then Ok(DebuggeeThread(id, DefaultThreadName(id)))
    else Ok(DebuggeeThread(id, name.value))
  }

  /** Every constructed debuggee thread has a name that is not blank. */
  lemma DebuggeeThreadNameNotBlank(id: int, name: Option<string>)
    requires NewDebuggeeThread(id, name).Ok?
    ensures !IsNullOrWhiteSpace(Some(NewDebuggeeThread(id, name).value.name))
  {
    var t := NewDebuggeeThread(id, name).value;
    if IsNullOrWhiteSpace(name) {
      assert t.name[0] == 'T' && !IsWhiteSpace(t.name[0]);
    }
  }

  /** The protocol's `Thread` record. */
  datatype ProtocolThread = ProtocolThread(id: int, name: string)

  /** `new Thread(id, name)` of the protocol library: any id is kept, and only a
      null or empty name (not a white-space one) is replaced by the default. */
  function NewProtocolThread(id: int, name: Option<string>): (r: ProtocolThread)
    ensures r.id == id
    ensures IsNullOrEmpty(name) ==> r.name == DefaultThreadName(id)
    ensures !IsNullOrEmpty(name) ==> r.name == name.value
    ensures |r.name| > 0
  {
    if IsNullOrEmpty(name) then ProtocolThread(id, DefaultThreadName(id))
    else ProtocolThread(id, name.value)
  }

  // ---------------------------------------------------------------------
  // Scope

  datatype Scope = Scope(id: int, name: string)

  /** `new Scope(id, name)`: a non-positive id is rejected first, then a blank name. */
  function NewScope(id: int, name: Option<string>): (r: Result<Scope>)
    ensures r.Ok? <==> id > 0 && !IsNullOrWhiteSpace(name)
    ensures id <= 0 ==> r == Err(Argument("id"))
    ensures id > 0 && IsNullOrWhiteSpace(name) ==> r == Err(ArgumentNull("name"))
    ensures r.Ok? ==> r.value == Scope(id, name.value)
  {
    if id <= 0 then Err(Argument("id"))
    else if IsNullOrWhiteSpace(name) then Err(ArgumentNull("name"))
    else Ok(Scope(id, name.value))
  }

  // ---------------------------------------------------------------------
  // Scope groups

  /** `DEBUG_SCOPE_GROUP` values the name table maps to. */
  datatype ScopeGroup = Locals | Arguments

  /** The name table, keyed case-insensitively, in insertion order. */
  const ScopeTable: seq<(string, ScopeGroup)> := [("Locals", Locals), ("Arguments", Arguments)]

  /** `Scopes.GetNames`: the table's keys. */
  function GetNames(): (names: seq<string>)
    ensures |names| == |ScopeTable|
    ensures forall i :: 0 <= i < |names| ==> names[i] == ScopeTable[i].0
  {
    Firsts(ScopeTable)
  }

  /** `Scopes.GetScopeByName`: the group whose key equals `name` ignoring case;
      a null name fails in the dictionary lookup and an unknown one throws. */
  function GetScopeByName(name: Option<string>): (r: Result<ScopeGroup>)
    ensures name.None? ==> r == Err(ArgumentNull("key"))
    ensures name.Some? ==> (r.Ok? <==> exists i :: 0 <= i < |ScopeTable| && EqualsCmp(name.value, ScopeTable[i].0, OrdinalIgnoreCase))
    ensures r.Ok? ==> exists i :: 0 <= i < |ScopeTable| && EqualsCmp(name.value, ScopeTable[i].0, OrdinalIgnoreCase) && r.value == ScopeTable[i].1
  {
    if name.None? then Err(ArgumentNull("key"))
    else if EqualsCmp(name.value, "Locals", OrdinalIgnoreCase) then
      assert ScopeTable[0] == ("Locals", Locals);
      Ok(Locals)
    else if EqualsCmp(name.value, "Arguments", OrdinalIgnoreCase) then
      assert ScopeTable[1] == ("Arguments", Arguments);
      Ok(Arguments)
    else Err(Unknown("Unknown scope name"))
  }

  /** Every listed name resolves, to the group it is listed with. */
  lemma GetNamesResolve()
    ensures forall i :: 0 <= i < |GetNames()| ==> GetScopeByName(Some(GetNames()[i])) == Ok(ScopeTable[i].1)
  {
    assert GetNames() == ["Locals", "Arguments"];
    assert EqualsCmp("Locals", "Locals", OrdinalIgnoreCase);
    assert EqualsCmp("Arguments", "Arguments", OrdinalIgnoreCase);
    assert !EqualsCmp("Arguments", "Locals", OrdinalIgnoreCase) by {
      assert |"Arguments"| != |"Locals"|;
    }
  }

  /** The lookup does not depend on the case of the name. */
  lemma GetScopeByNameIgnoresCase(a: string, b: string)
    requires EqualsCmp(a, b, OrdinalIgnoreCase)
    ensures GetScopeByName(Some(a)) == GetScopeByName(Some(b))
  {
  }
}
