/** The adapter's entity store: one counter hands out handles for stack
    frames, scopes and variables, and a parent-to-children map records where
    each handle hangs (a frame under its thread id, a scope under its frame, a
    variable under its scope or under another variable). The store does not
    look inside frames, scopes, variables or symbol groups, so their types are
    parameters. */
module EntityStore {
  import opened Base
  import opened Records

  /** A `Func<int, T>` factory argument: null, or a function of the new handle
      that returns the entity or throws. */
  datatype Factory<T> = NullFactory | Factory(build: int -> Result<T>)

  /** `order` lists the elements of `s`, each exactly once. */
  ghost predicate Enumerates(order: seq<int>, s: set<int>) {
    && (forall i, j :: 0 <= i < j < |order| ==> order[i] != order[j])
    && (forall i :: 0 <= i < |order| ==> order[i] in s)
    && (forall x :: x in s ==> x in order)
  }

  /** Some element of a non-empty set, standing for the next element a
      `HashSet` or `Dictionary` enumeration yields. */
  method Pick<T>(s: set<T>) returns (x: T)
    requires s != {}
    ensures x in s
  {
    x :| x in s;
  }

  /** The thread table after `ts` have been stored one after another, each
      under its own id. */
  function Upsert(m: map<int, DebuggeeThread>, ts: seq<DebuggeeThread>): (r: map<int, DebuggeeThread>)
    ensures (forall k :: k in m ==> m[k].id == k) ==> forall k :: k in r ==> r[k].id == k
    decreases |ts|
  {
    if |ts| == 0 then m else Upsert(m[ts[0].id := ts[0]], ts[1..])
  }

  /** After the upsert, an id maps to the last thread in `ts` that carries it,
      and ids no thread carries keep their old entry. */
  lemma {:induction false} UpsertLastWins(m: map<int, DebuggeeThread>, ts: seq<DebuggeeThread>, k: int)
    ensures k in Upsert(m, ts) <==> k in m || exists i :: 0 <= i < |ts| && ts[i].id == k
    ensures (forall i :: 0 <= i < |ts| ==> ts[i].id != k) && k in m ==> Upsert(m, ts)[k] == m[k]
    ensures forall i :: 0 <= i < |ts| && ts[i].id == k && (forall j :: i < j < |ts| ==> ts[j].id != k) ==> Upsert(m, ts)[k] == ts[i]
    decreases |ts|
  {
    if |ts| > 0 {
      var m' := m[ts[0].id := ts[0]];
      UpsertLastWins(m', ts[1..], k);
      assert forall i :: 1 <= i < |ts| ==> ts[1..][i - 1] == ts[i];
      if exists i :: 0 <= i < |ts| && ts[i].id == k {
        var i :| 0 <= i < |ts| && ts[i].id == k;
        if i > 0 {
          assert ts[1..][i - 1].id == k;
        }
      }
    }
  }

  /** The contents of a store as a value: its counter and its tables. */
  datatype StoreTables<Frame, ScopeEntity, Variable, SymbolGroup> = StoreTables(
    counter: int,
    frames: map<int, Frame>,
    scopes: map<int, ScopeEntity>,
    symbolGroups: map<int, SymbolGroup>,
    threads: map<int, DebuggeeThread>,
    variables: map<int, Variable>,
    children: map<int, set<int>>)

  /** The contents of a new or cleared store. */
  function EmptyTables<Frame, ScopeEntity, Variable, SymbolGroup>(): StoreTables<Frame, ScopeEntity, Variable, SymbolGroup> {
    StoreTables(FirstIndex, map[], map[], map[], map[], map[], map[])
  }

  class DebuggerState<Frame, ScopeEntity, Variable, SymbolGroup> {
    /** The last handle given out; the next one is one more. */
    var counter: int
    var frames: map<int, Frame>
    var scopes: map<int, ScopeEntity>
    var symbolGroups: map<int, SymbolGroup>
    var threads: map<int, DebuggeeThread>
    var variables: map<int, Variable>
    var children: map<int, set<int>>

    /** Every frame, scope, variable and child handle was handed out since the
        counter was last reset, the three kinds never share a handle, a handle
        hangs under at most one parent, and threads are stored under their ids. */
    ghost predicate Valid()
      reads this
    {
      && FirstIndex <= counter
      && (forall h :: h in frames ==> FirstIndex < h <= counter)
      && (forall h :: h in scopes ==> FirstIndex < h <= counter)
      && (forall h :: h in variables ==> FirstIndex < h <= counter)
      && (forall h :: h in frames ==> h !in scopes && h !in variables)
      && (forall h :: h in scopes ==> h !in variables)
      && (forall p, c :: p in children && c in children[p] ==> FirstIndex < c <= counter)
      && (forall p, q, c :: p in children && q in children && c in children[p] && c in children[q] ==> p == q)
      && (forall k :: k in threads ==> threads[k].id == k)
    }

    /** The store's contents as a value. */
    function Contents(): StoreTables<Frame, ScopeEntity, Variable, SymbolGroup>
      reads this
    {
      StoreTables(counter, frames, scopes, symbolGroups, threads, variables, children)
    }

    /** An empty store: its first handle will be `FirstIndex + 1`. */
    constructor ()
      ensures Valid()
      ensures counter == FirstIndex
      ensures frames == map[] && scopes == map[] && symbolGroups == map[]
      ensures threads == map[] && variables == map[] && children == map[]
    {
      counter := FirstIndex;
      frames, scopes, symbolGroups := map[], map[], map[];
      threads, variables, children := map[], map[], map[];
    }

    /** `GetNewIndex`: increments the counter and returns its new value. */
    method GetNewIndex() returns (h: int)
      modifies this
      ensures h == old(counter) + 1 && counter == h
      ensures frames == old(frames) && scopes == old(scopes) && variables == old(variables)
      ensures symbolGroups == old(symbolGroups) && threads == old(threads) && children == old(children)
    {
      counter := counter + 1;
      h := counter;
    }

    /** `AddConnection`: records `index` as a child of `key`, creating the set
        when `key` has none. */
    method AddConnection(key: int, index: int)
      modifies this
      ensures children == old(children)[key := (if key in old(children) then old(children[key]) else {}) + {index}]
      ensures counter == old(counter) && frames == old(frames) && scopes == old(scopes) && variables == old(variables)
      ensures symbolGroups == old(symbolGroups) && threads == old(threads)
    {
      var existing := if key in children then children[key] else {};
      children := children[key := existing + {index}];
    }

    /** Shared body of `AddFrame`, `AddScope` and `AddVariable` up to storing
        the entity: a null factory throws before anything changes; otherwise a
        new handle is taken and hung under `parent`, then the factory runs. */
    method NewChild<T>(parent: int, factory: Factory<T>) returns (h: int, r: Result<T>)
      requires Valid()
      modifies this
      ensures factory.NullFactory? ==> r == Err(ArgumentNull("factory")) && unchanged(this)
      ensures factory.Factory? ==> h == old(counter) + 1 && counter == h && r == factory.build(h)
      ensures factory.Factory? ==> children == old(children)[parent := (if parent in old(children) then old(children[parent]) else {}) + {h}]
      ensures frames == old(frames) && scopes == old(scopes) && variables == old(variables)
      ensures symbolGroups == old(symbolGroups) && threads == old(threads)
      ensures Valid()
    {
      if factory.NullFactory? {
        return 0, Err(ArgumentNull("factory"));
      }
      h := GetNewIndex();
      AddConnection(parent, h);
      r := factory.build(h);
      assert forall p :: p in old(children) ==> h !in old(children[p]);
    }

    /** `AddFrame`: the frame is built from the next handle and stored under it,
        hung under the thread id. */
    method AddFrame(threadId: int, factory: Factory<Frame>) returns (r: Result<Frame>)
      requires Valid()
      modifies this
      ensures Valid()
      ensures factory.NullFactory? ==> r == Err(ArgumentNull("factory")) && unchanged(this)
      ensures factory.Factory? ==> counter == old(counter) + 1 && r == factory.build(counter)
      ensures factory.Factory? ==> counter !in old(frames) && counter !in old(scopes) && counter !in old(variables)
      ensures factory.Factory? ==> threadId in children && counter in children[threadId]
      ensures factory.Factory? ==>
        children == old(children)[threadId := (if threadId in old(children) then old(children[threadId]) else {}) + {counter}]
      ensures r.Ok? ==> frames == old(frames)[counter := r.value] && GetFrame(counter) == Some(r.value)
      ensures !r.Ok? ==> frames == old(frames)
      ensures scopes == old(scopes) && variables == old(variables) && symbolGroups == old(symbolGroups) && threads == old(threads)
    {
      var h;
      h, r := NewChild(threadId, factory);
      if r.Ok? {
        frames := frames[h := r.value];
      }
    }

    /** `AddScope`: as `AddFrame`, for a scope under a frame. */
    method AddScope(frameId: int, factory: Factory<ScopeEntity>) returns (r: Result<ScopeEntity>)
      requires Valid()
      modifies this
      ensures Valid()
      ensures factory.NullFactory? ==> r == Err(ArgumentNull("factory")) && unchanged(this)
      ensures factory.Factory? ==> counter == old(counter) + 1 && r == factory.build(counter)
      ensures factory.Factory? ==> counter !in old(frames) && counter !in old(scopes) && counter !in old(variables)
      ensures factory.Factory? ==> frameId in children && counter in children[frameId]
      ensures factory.Factory? ==>
        children == old(children)[frameId := (if frameId in old(children) then old(children[frameId]) else {}) + {counter}]
      ensures r.Ok? ==> scopes == old(scopes)[counter := r.value] && GetScope(counter) == Some(r.value)
      ensures !r.Ok? ==> scopes == old(scopes)
      ensures frames == old(frames) && variables == old(variables) && symbolGroups == old(symbolGroups) && threads == old(threads)
    {
      var h;
      h, r := NewChild(frameId, factory);
      if r.Ok? {
        scopes := scopes[h := r.value];
      }
    }

    /** `AddVariable`: as `AddFrame`, for a variable under a scope or a variable. */
    method AddVariable(parentId: int, factory: Factory<Variable>) returns (r: Result<Variable>)
      requires Valid()
      modifies this
      ensures Valid()
      ensures factory.NullFactory? ==> r == Err(ArgumentNull("factory")) && unchanged(this)
      ensures factory.Factory? ==> counter == old(counter) + 1 && r == factory.build(counter)
      ensures factory.Factory? ==> counter !in old(frames) && counter !in old(scopes) && counter !in old(variables)
      ensures factory.Factory? ==> parentId in children && counter in children[parentId]
      ensures factory.Factory? ==>
        children == old(children)[parentId := (if parentId in old(children) then old(children[parentId]) else {}) + {counter}]
      ensures r.Ok? ==> variables == old(variables)[counter := r.value] && GetVariable(counter) == Some(r.value)
      ensures !r.Ok? ==> variables == old(variables)
      ensures frames == old(frames) && scopes == old(scopes) && symbolGroups == old(symbolGroups) && threads == old(threads)
    {
      var h;
      h, r := NewChild(parentId, factory);
      if r.Ok? {
        variables := variables[h := r.value];
      }
    }

    /** `GetFrame`: the frame stored under the handle, or null. */
    function GetFrame(frameId: int): (r: Option<Frame>)
      reads this
      ensures r.None? <==> frameId !in frames
      ensures r.Some? ==> r.value == frames[frameId]
    {
      if frameId in frames then Some(frames[frameId]) else None
    }

    /** `GetScope`: the scope stored under the handle, or null. */
    function GetScope(scopeId: int): (r: Option<ScopeEntity>)
      reads this
      ensures r.None? <==> scopeId !in scopes
      ensures r.Some? ==> r.value == scopes[scopeId]
    {
      if scopeId in scopes then Some(scopes[scopeId]) else None
    }

    /** `GetVariable`: the variable stored under the handle, or null. */
    function GetVariable(variableId: int): (r: Option<Variable>)
      reads this
      ensures r.None? <==> variableId !in variables
      ensures r.Some? ==> r.value == variables[variableId]
    {
      if variableId in variables then Some(variables[variableId]) else None
    }

    /** `GetSymbolsForScope`: the symbol group stored under the id, or null. */
    function GetSymbolsForScope(scopeId: int): (r: Option<SymbolGroup>)
      reads this
      ensures r.None? <==> scopeId !in symbolGroups
      ensures r.Some? ==> r.value == symbolGroups[scopeId]
    {
      if scopeId in symbolGroups then Some(symbolGroups[scopeId]) else None
    }

    /** `UpdateSymbolGroup`: stores or replaces the group under `id`. */
    method UpdateSymbolGroup(id: int, group: SymbolGroup)
      requires Valid()
      modifies this
      ensures Valid()
      ensures symbolGroups == old(symbolGroups)[id := group] && GetSymbolsForScope(id) == Some(group)
      ensures counter == old(counter) && frames == old(frames) && scopes == old(scopes)
      ensures variables == old(variables) && threads == old(threads) && children == old(children)
    {
      symbolGroups := symbolGroups[id := group];
    }

    /** `Clear`: empties every table and resets the counter, so the store is
        indistinguishable from a new one. */
    method Clear()
      modifies this
      ensures Valid()
      ensures counter == FirstIndex
      ensures frames == map[] && scopes == map[] && symbolGroups == map[]
      ensures threads == map[] && variables == map[] && children == map[]
      ensures Contents() == EmptyTables()
    {
      frames := map[];
      symbolGroups := map[];
      scopes := map[];
      variables := map[];
      threads := map[];
      children := map[];
      counter := FirstIndex;
    }

    /** `AddThreads`: a null sequence changes nothing; otherwise each thread is
        stored under its id, a later one replacing an earlier one. */
    method AddThreads(ts: Option<seq<DebuggeeThread>>)
      requires Valid()
      modifies this
      ensures Valid()
      ensures ts.None? ==> unchanged(this)
      ensures ts.Some? ==> threads == Upsert(old(threads), ts.value)
      ensures counter == old(counter) && frames == old(frames) && scopes == old(scopes) && variables == old(variables)
      ensures symbolGroups == old(symbolGroups) && children == old(children)
    {
      if ts.None? {
        return;
      }
      var items := ts.value;
      var i := 0;
      while i < |items|
        invariant 0 <= i <= |items|
        invariant Upsert(threads, items[i..]) == Upsert(old(threads), items)
        invariant forall k :: k in threads ==> threads[k].id == k
        invariant counter == old(counter) && frames == old(frames) && scopes == old(scopes) && variables == old(variables)
        invariant symbolGroups == old(symbolGroups) && children == old(children)
      {
        assert items[i..][1..] == items[i + 1..];
        threads := threads[items[i].id := items[i]];
        i := i + 1;
      }
      assert items[i..] == [];
    }

    /** `GetThreads`: every stored thread. */
    function GetThreads(): (r: set<DebuggeeThread>)
      requires Valid()
      reads this
      ensures forall t :: t in r <==> t.id in threads && threads[t.id] == t
    {
      set k | k in threads :: threads[k]
    }

    /** `GetChildren`: the entities of `container` stored under the children of
        `parentId`, in the children set's enumeration order (`order`); a parent
        with no children, and a child missing from the container, contribute
        nothing. */
    method GetChildren<T>(parentId: int, container: map<int, T>) returns (r: seq<T>, order: seq<int>)
      ensures Enumerates(order, if parentId in children then children[parentId] * container.Keys else {})
      ensures |r| == |order| && forall i :: 0 <= i < |order| ==> r[i] == container[order[i]]
    {
      r, order := [], [];
      if parentId !in children {
        return;
      }
      var indices := children[parentId];
      var remaining := indices;
      while remaining != {}
        invariant remaining <= indices
        invariant Enumerates(order, (indices - remaining) * container.Keys)
        invariant |r| == |order| && forall i :: 0 <= i < |order| ==> r[i] == container[order[i]]
        decreases |remaining|
      {
        var index := Pick(remaining);
        if index in container {
          r, order := r + [container[index]], order + [index];
        }
        remaining := remaining - {index};
      }
    }

    /** `GetScopes`: the scopes hung under a frame. */
    method GetScopes(frameId: int) returns (r: seq<ScopeEntity>, order: seq<int>)
      ensures Enumerates(order, if frameId in children then children[frameId] * scopes.Keys else {})
      ensures |r| == |order| && forall i :: 0 <= i < |order| ==> r[i] == scopes[order[i]]
    {
      r, order := GetChildren(frameId, scopes);
    }

    /** `GetFrames`: the frames hung under a thread id. */
    method GetFrames(threadId: int) returns (r: seq<Frame>, order: seq<int>)
      ensures Enumerates(order, if threadId in children then children[threadId] * frames.Keys else {})
      ensures |r| == |order| && forall i :: 0 <= i < |order| ==> r[i] == frames[order[i]]
    {
      r, order := GetChildren(threadId, frames);
    }

    /** `GetVariablesByScope`: the variables hung under a scope. */
    method GetVariablesByScope(scopeId: int) returns (r: seq<Variable>, order: seq<int>)
      ensures Enumerates(order, if scopeId in children then children[scopeId] * variables.Keys else {})
      ensures |r| == |order| && forall i :: 0 <= i < |order| ==> r[i] == variables[order[i]]
    {
      r, order := GetChildren(scopeId, variables);
    }

    /** `ExpandVariable`: the variables hung under a variable. */
    method ExpandVariable(variableId: int) returns (r: seq<Variable>, order: seq<int>)
      ensures Enumerates(order, if variableId in children then children[variableId] * variables.Keys else {})
      ensures |r| == |order| && forall i :: 0 <= i < |order| ==> r[i] == variables[order[i]]
    {
      r, order := GetChildren(variableId, variables);
    }

    /** The handle `child` hangs under, if any. */
    ghost function ParentOf(child: int): (r: Option<int>)
      reads this
      ensures r.Some? ==> r.value in children && child in children[r.value]
      ensures r.None? ==> forall p :: p in children ==> child !in children[p]
    {
      if exists p :: p in children && child in children[p] then
        Some(var p :| p in children && child in children[p]; p)
      else None
    }

    /** The walk of `GetTopMostParentScope` with `fuel` further steps allowed:
        the first ancestor that is a scope, or the first ancestor without a
        parent; `None` when the walk goes on longer than the fuel. */
    ghost function TopMostParentScope(child: int, fuel: nat): Option<int>
      reads this
      decreases fuel
    {
      match ParentOf(child)
      case None => Some(child)
      case Some(p) =>
        if p in scopes then Some(p)
        else if fuel == 0 then None
        else TopMostParentScope(p, fuel - 1)
    }

    /** `GetTopMostParentScope`: looks for the entry of the children map that
        holds `childId`; returns its key if that is a scope and continues from
        it otherwise; a handle under no parent is its own answer. The source
        recurses without bound; `fuel` bounds the recursion and `None` stands
        for the stack running out. */
    method GetTopMostParentScope(childId: int, fuel: nat) returns (r: Option<int>)
      requires Valid()
      ensures r == TopMostParentScope(childId, fuel)
      decreases fuel
    {
      var keys := children.Keys;
      while keys != {}
        invariant keys <= children.Keys
        invariant forall p :: p in children && p !in keys ==> childId !in children[p]
        decreases |keys|
      {
        var key := Pick(keys);
        if childId in children[key] {
          assert ParentOf(childId) == Some(key);
          if key in scopes {
            return Some(key);
          }
          if fuel == 0 {
            return None;
          }
          r := GetTopMostParentScope(key, fuel - 1);
          return;
        }
        keys := keys - {key};
      }
      return Some(childId);
    }

    /** `GetScopeForVariable`: the scope stored under the handle the walk ends
        at, or null when that handle is not a scope. The source's walk has no
        bound and overflows its stack on a cycle of parents; here the walk is
        allowed one step per parent in the map, and a walk that needs more is
        reported as that overflow. */
    method GetScopeForVariable(variableId: int) returns (r: Result<Option<ScopeEntity>>)
      requires Valid()
      ensures TopMostParentScope(variableId, |children|).None? ==> r == Err(StackOverflow)
      ensures TopMostParentScope(variableId, |children|).Some? ==> r == Ok(GetScope(TopMostParentScope(variableId, |children|).value))
    {
      var scopeId := GetTopMostParentScope(variableId, |children|);
      if scopeId.None? {
        return Err(StackOverflow);
      }
      return Ok(GetScope(scopeId.value));
    }

    /** A handle under no parent is its own top-most scope. */
    lemma NoParentIsOwnScope(child: int, fuel: nat)
      requires forall p :: p in children ==> child !in children[p]
      ensures TopMostParentScope(child, fuel) == Some(child)
    {
    }

    /** A handle whose parent is a scope resolves to that scope. */
    lemma ScopeParentIsFound(child: int, scope: int, fuel: nat)
      requires Valid()
      requires scope in children && child in children[scope] && scope in scopes
      ensures TopMostParentScope(child, fuel) == Some(scope)
    {
      assert ParentOf(child) == Some(scope);
    }

    /** The walk ends at a scope or at a handle that hangs under nothing. */
    lemma {:induction false} WalkEndsAtScopeOrRoot(child: int, fuel: nat)
      requires TopMostParentScope(child, fuel).Some?
      ensures var s := TopMostParentScope(child, fuel).value;
        s in scopes || (s == child && ParentOf(child).None?) || ParentOf(s).None?
      decreases fuel
    {
      match ParentOf(child)
      case None =>
      case Some(p) =>
        if p !in scopes {
          WalkEndsAtScopeOrRoot(p, fuel - 1);
        }
    }

    /** More fuel never changes an answer the walk already reached. */
    lemma {:induction false} WalkFuelMonotone(child: int, fuel: nat, more: nat)
      requires fuel <= more
      requires TopMostParentScope(child, fuel).Some?
      ensures TopMostParentScope(child, more) == TopMostParentScope(child, fuel)
      decreases fuel
    {
      match ParentOf(child)
      case None =>
      case Some(p) =>
        if p !in scopes {
          WalkFuelMonotone(p, fuel - 1, more - 1);
        }
    }
  }
}
