/** Mapping the directives of a block to values: every directive is handled once, and what is not in the
    block is inherited, defaulted or missed. */
module ConfigMap {
  import opened Common
  import opened Parser

  /** How a directive is handled: by a function that may be called many times, or by one that makes its
      value. The default is absent, or a function's answer, which may be an error. */
  datatype Entry<!V> =
    | Callback(accepts: Node -> bool)
    | Mapped(required: bool, inherit: bool, default: Option<Option<V>>, mapper: Node -> Option<V>, stored: bool)

  datatype MapError = UnexpectedDirective | CallbackFailed | DuplicateDirective | MapperFailed | MissingDirective | DefaultFailed

  /** What is done with one directive. */
  datatype Handling = Kept | CalledBack | ValueMade

  // ---------------------------------------------------------------- the meaning of a block

  ghost predicate Present(nodes: seq<Node>, n: nat, name: string)
    requires n <= |nodes|
  {
    exists i :: 0 <= i < n && nodes[i].name == name
  }

  ghost predicate NodeFine<V>(entries: map<string, Entry<V>>, allowUnknown: bool, nodes: seq<Node>, i: nat)
    requires i < |nodes|
  {
    var name := nodes[i].name;
    if name !in entries then allowUnknown
    else if entries[name].Callback? then entries[name].accepts(nodes[i])
    else entries[name].mapper(nodes[i]).Some? && !Present(nodes, i, name)
  }

  function HandlingOf<V>(entries: map<string, Entry<V>>, node: Node): Handling {
    if node.name !in entries then Kept else if entries[node.name].Callback? then CalledBack else ValueMade
  }

  function Unknown<V>(entries: map<string, Entry<V>>, nodes: seq<Node>): seq<Node> {
    if nodes == [] then [] else Unknown(entries, Front(nodes)) + if Last(nodes).name in entries then [] else [Last(nodes)]
  }

  datatype Filled<V> = Nothing | Value(value: V) | Failed(error: MapError)

  /** What an entry gets when its directive is not in the block. */
  function Fill<V>(entry: Entry<V>, name: string, globals: map<string, V>): Filled<V>
    requires entry.Mapped?
  {
    if entry.inherit && name in globals then Value(globals[name])
    else if entry.required then Failed(MissingDirective)
    else if entry.default.None? then Nothing
    else if entry.default.value.None? then Failed(DefaultFailed)
    else Value(entry.default.value.value)
  }

  ghost predicate EntryFine<V>(entries: map<string, Entry<V>>, globals: map<string, V>, nodes: seq<Node>, name: string) {
    name in entries && entries[name].Mapped? && !Present(nodes, |nodes|, name) ==> !Fill(entries[name], name, globals).Failed?
  }

  /** The block can be mapped: each directive by itself, and each entry that has none. */
  ghost predicate Acceptable<V>(entries: map<string, Entry<V>>, allowUnknown: bool, globals: map<string, V>, nodes: seq<Node>) {
    && (forall i :: 0 <= i < |nodes| ==> NodeFine(entries, allowUnknown, nodes, i))
    && (forall name :: name in entries ==> EntryFine(entries, globals, nodes, name))
  }

  /** The value made by the entry's directive among the first `n`. */
  function InBlock<V>(entry: Entry<V>, nodes: seq<Node>, n: nat, name: string): Option<V>
    requires entry.Mapped? && n <= |nodes|
  {
    if n == 0 then None
    else if nodes[n - 1].name == name then entry.mapper(nodes[n - 1])
    else InBlock(entry, nodes, n - 1, name)
  }

  /** The value of an entry: that of its directive, else the inherited one, else the default. */
  ghost function ValueOf<V>(entries: map<string, Entry<V>>, globals: map<string, V>, nodes: seq<Node>, name: string): Option<V> {
    if name !in entries || entries[name].Callback? then None
    else if Present(nodes, |nodes|, name) then InBlock(entries[name], nodes, |nodes|, name)
    else
      var filled := Fill(entries[name], name, globals);
      if filled.Value? then Some(filled.value) else None
  }

  /** Where the value goes: to the entry's variable, and to those who may inherit it, unless it is a zero
      value that is not from the block. */
  ghost predicate Placed<V>(entries: map<string, Entry<V>>, globals: map<string, V>, zero: V -> bool, nodes: seq<Node>,
                             values: map<string, V>, before: map<string, V>, stores: map<string, V>, name: string) {
    var v := ValueOf(entries, globals, nodes, name);
    && (if v.Some? && (Present(nodes, |nodes|, name) || !zero(v.value)) then name in values && values[name] == v.value else name !in values)
    && (if v.Some? && entries[name].stored then name in stores && stores[name] == v.value else SameAt(before, stores, name))
  }

  ghost predicate SameAt<V>(before: map<string, V>, after: map<string, V>, name: string) {
    (name in after <==> name in before) && (name in before ==> after[name] == before[name])
  }

  /** In an acceptable block, the value of an entry is what its mapper makes of its directive. */
  lemma {:induction false} DirectiveDecides<V>(entries: map<string, Entry<V>>, allowUnknown: bool, globals: map<string, V>, nodes: seq<Node>, i: nat)
    requires Acceptable(entries, allowUnknown, globals, nodes)
    requires i < |nodes| && nodes[i].name in entries && entries[nodes[i].name].Mapped?
    ensures ValueOf(entries, globals, nodes, nodes[i].name) == entries[nodes[i].name].mapper(nodes[i])
  {
    var name := nodes[i].name;
    forall j | i < j < |nodes| ensures nodes[j].name != name {
      assert NodeFine(entries, allowUnknown, nodes, j);
      assert nodes[j].name == name ==> Present(nodes, j, name);
    }
    InBlockAt(entries[name], nodes, |nodes|, i, name);
  }

  lemma {:induction false} InBlockAt<V>(entry: Entry<V>, nodes: seq<Node>, n: nat, i: nat, name: string)
    requires entry.Mapped? && i < n <= |nodes| && nodes[i].name == name && forall j :: i < j < n ==> nodes[j].name != name
    ensures InBlock(entry, nodes, n, name) == entry.mapper(nodes[i])
    decreases n
  {
    if i < n - 1 {
      InBlockAt(entry, nodes, n - 1, i, name);
    }
  }

  /** No required entry is left without a value. */
  lemma {:induction false} RequiredHasValue<V>(entries: map<string, Entry<V>>, allowUnknown: bool, globals: map<string, V>, nodes: seq<Node>, name: string)
    requires Acceptable(entries, allowUnknown, globals, nodes)
    requires name in entries && entries[name].Mapped? && entries[name].required
    ensures ValueOf(entries, globals, nodes, name).Some?
  {
    if Present(nodes, |nodes|, name) {
      var i :| 0 <= i < |nodes| && nodes[i].name == name;
      assert NodeFine(entries, allowUnknown, nodes, i);
      DirectiveDecides(entries, allowUnknown, globals, nodes, i);
    } else {
      assert EntryFine(entries, globals, nodes, name);
    }
  }

  // ---------------------------------------------------------------- the loops

  class Map<V> {
    const allowUnknown: bool
    var entries: map<string, Entry<V>>
    /** The values that others may inherit. */
    var values: map<string, V>
    /** The variables that have been assigned. */
    var stores: map<string, V>

    constructor (allowUnknown: bool)
      ensures this.allowUnknown == allowUnknown && entries == map[] && values == map[] && stores == map[]
    {
      this.allowUnknown, entries, values, stores := allowUnknown, map[], map[], map[];
    }

    /** Declares an entry; declaring a name twice is a mistake in the program. */
    method Declare(name: string, entry: Entry<V>)
      requires name !in entries
      modifies `entries
      ensures entries == old(entries)[name := entry]
    {
      entries := entries[name := entry];
    }

    /** One directive. */
    method Handle(node: Node, matched: set<string>) returns (r: Result<Handling, MapError>)
      modifies `values, `stores
      ensures r.Ok? <==> HandledFine(entries, allowUnknown, node, matched)
      ensures r.Ok? ==> r.value == HandlingOf(entries, node)
      ensures r.Ok? ==> Taken(entries, node, old(values), values, old(stores), stores)
      ensures r.Err? ==> values == old(values) && stores == old(stores)
    {
      if node.name !in entries {
        return if allowUnknown then Ok(Kept) else Err(UnexpectedDirective);
      }
      match entries[node.name] {
        case Callback(accepts) =>
          return if accepts(node) then Ok(CalledBack) else Err(CallbackFailed);
        case Mapped(_, _, _, mapper, stored) =>
          if node.name in matched {
            return Err(DuplicateDirective);
          }
          var val := mapper(node);
          if val.None? {
            return Err(MapperFailed);
          }
          values := values[node.name := val.value];
          if stored {
            stores := stores[node.name := val.value];
          }
          return Ok(ValueMade);
      }
    }

    /** The loop over the directives of the block. */
    method MapBlock(nodes: seq<Node>) returns (r: Result<seq<Node>, MapError>, ghost done: seq<Handling>)
      modifies `values, `stores
      ensures r.Ok? <==> AllFine(entries, allowUnknown, nodes, |nodes|)
      ensures r.Ok? ==> r.value == Unknown(entries, nodes) && Each(entries, nodes, done)
      ensures r.Ok? ==> forall name :: Made(entries, nodes, |nodes|, values, name)
      ensures r.Ok? ==> forall name :: Assigned(entries, values, old(stores), stores, name)
    {
      var unknown, matched := [], {};
      values, done := map[], [];
      var i := 0;
      while i < |nodes|
        invariant 0 <= i <= |nodes| && unknown == Unknown(entries, nodes[..i]) && Each(entries, nodes[..i], done)
        invariant AllFine(entries, allowUnknown, nodes, i)
        invariant AllStanding(entries, nodes, i, matched, values, old(stores), stores)
      {
        var node := nodes[i];
        ghost var matched0, values0, stores0 := matched, values, stores;
        FineSoFar(entries, allowUnknown, nodes, i, matched, values, old(stores), stores);
        var handling := Handle(node, matched);
        if handling.Err? {
          assert !NodeFine(entries, allowUnknown, nodes, i);
          return Err(handling.error), done;
        }
        EachNext(entries, nodes, i, done, handling.value);
        if node.name in entries {
          matched := matched + {node.name};
        } else {
          unknown := unknown + [node];
        }
        done := done + [handling.value];
        StandingNext(entries, allowUnknown, nodes, i, matched0, values0, stores0, matched, values, stores, old(stores));
        i := i + 1;
      }
      assert nodes[..i] == nodes;
      forall name ensures Made(entries, nodes, |nodes|, values, name) && Assigned(entries, values, old(stores), stores, name) {
        assert Standing(entries, nodes, i, matched, values, old(stores), stores, name);
      }
      return Ok(unknown), done;
    }

    /** What one entry without a directive gets. */
    method FillOne(name: string, globals: map<string, V>, zero: V -> bool) returns (err: Option<MapError>)
      requires name in entries && entries[name].Mapped?
      modifies `values, `stores
      ensures var filled := Fill(entries[name], name, globals);
              && (err.Some? <==> filled.Failed?)
              && values == (if filled.Value? && !zero(filled.value) then old(values)[name := filled.value] else old(values))
              && stores == (if filled.Value? && entries[name].stored then old(stores)[name := filled.value] else old(stores))
    {
      var entry := entries[name];
      var val: V;
      if entry.inherit && name in globals {
        val := globals[name];
      } else if !entry.required {
        if entry.default.None? {
          return None;
        }
        if entry.default.value.None? {
          return Some(DefaultFailed);
        }
        val := entry.default.value.value;
      } else {
        return Some(MissingDirective);
      }
      if !zero(val) {
        values := values[name := val];
      }
      if entry.stored {
        stores := stores[name := val];
      }
      return None;
    }

    /** The loop over the entries, in any order. */
    method FillMissing(globals: map<string, V>, zero: V -> bool, nodes: seq<Node>, ghost before: map<string, V>) returns (err: Option<MapError>)
      requires forall name :: Made(entries, nodes, |nodes|, values, name)
      requires forall name :: Assigned(entries, values, before, stores, name)
      modifies `values, `stores
      ensures err.None? <==> forall name :: name in entries ==> EntryFine(entries, globals, nodes, name)
      ensures err.None? ==> forall name :: Placed(entries, globals, zero, nodes, values, before, stores, name)
    {
      var todo := entries.Keys;
      forall name | name !in entries ensures Placed(entries, globals, zero, nodes, values, before, stores, name) {
        assert Made(entries, nodes, |nodes|, values, name) && Assigned(entries, values, before, stores, name);
      }
      while todo != {}
        invariant todo <= entries.Keys
        invariant forall name :: name in todo ==> Made(entries, nodes, |nodes|, values, name) && Assigned(entries, values, before, stores, name)
        invariant forall name :: name !in todo ==> Placed(entries, globals, zero, nodes, values, before, stores, name)
        invariant forall name :: name in entries.Keys - todo ==> EntryFine(entries, globals, nodes, name)
        decreases todo
      {
        var name :| name in todo;
        var matched := exists i :: 0 <= i < |nodes| && nodes[i].name == name;
        ghost var values0, stores0 := values, stores;
        if !matched && entries[name].Mapped? {
          var failed := FillOne(name, globals, zero);
          if failed.Some? {
            assert !EntryFine(entries, globals, nodes, name);
            return failed;
          }
        }
        assert forall other :: other != name ==> SameAt(values0, values, other) && SameAt(stores0, stores, other);
        PlacedNow(entries, globals, zero, nodes, values0, values, before, stores0, stores, name);
        PlacedStill(entries, globals, zero, nodes, values0, values, before, stores0, stores, name, todo);
        todo := todo - {name};
      }
      return None;
    }

    /** Maps a block. Succeeds exactly when the block is acceptable; then every directive has been handled
        once, and every entry has its value, whatever the order of the entries. */
    method ProcessWith(globals: map<string, V>, zero: V -> bool, nodes: seq<Node>) returns (r: Result<seq<Node>, MapError>, ghost done: seq<Handling>)
      modifies `values, `stores
      ensures r.Ok? <==> Acceptable(entries, allowUnknown, globals, nodes)
      ensures r.Ok? ==> r.value == Unknown(entries, nodes) && Each(entries, nodes, done)
      ensures r.Ok? ==> forall name :: Placed(entries, globals, zero, nodes, values, old(stores), stores, name)
    {
      r, done := MapBlock(nodes);
      if r.Err? {
        return;
      }
      var err := FillMissing(globals, zero, nodes, old(stores));
      if err.Some? {
        return Err(err.value), done;
      }
    }
  }

  function EntriesOf<V>(declared: seq<(string, Entry<V>)>): map<string, Entry<V>> {
    if declared == [] then map[] else EntriesOf(Front(declared))[Last(declared).0 := Last(declared).1]
  }

  lemma {:induction false} OnlyDeclared<V>(declared: seq<(string, Entry<V>)>, name: string)
    ensures name in EntriesOf(declared) <==> exists i :: 0 <= i < |declared| && declared[i].0 == name
  {
    if declared != [] {
      OnlyDeclared(Front(declared), name);
      if i :| 0 <= i < |declared| && declared[i].0 == name {
        assert i < |declared| - 1 ==> Front(declared)[i] == declared[i];
      }
    }
  }

  /** What a module does with its block: it declares its entries, then has the block processed. */
  method ReadBlock<V>(declared: seq<(string, Entry<V>)>, allowUnknown: bool, globals: map<string, V>, zero: V -> bool, nodes: seq<Node>)
    returns (m: Map<V>, r: Result<seq<Node>, MapError>, ghost done: seq<Handling>)
    requires forall i, j :: 0 <= i < j < |declared| ==> declared[i].0 != declared[j].0
    ensures r.Ok? <==> Acceptable(EntriesOf(declared), allowUnknown, globals, nodes)
    ensures r.Ok? ==> r.value == Unknown(EntriesOf(declared), nodes) && Each(EntriesOf(declared), nodes, done)
    ensures r.Ok? ==> forall name :: Placed(EntriesOf(declared), globals, zero, nodes, m.values, map[], m.stores, name)
  {
    m := new Map(allowUnknown);
    var i := 0;
    while i < |declared|
      invariant 0 <= i <= |declared| && fresh(m) && m.values == map[] && m.stores == map[]
      invariant m.entries == EntriesOf(declared[..i])
    {
      OnlyDeclared(declared[..i], declared[i].0);
      assert Front(declared[..i + 1]) == declared[..i] && Last(declared[..i + 1]) == declared[i];
      m.Declare(declared[i].0, declared[i].1);
      i := i + 1;
    }
    assert declared[..i] == declared;
    r, done := m.ProcessWith(globals, zero, nodes);
  }

  ghost predicate HandledFine<V>(entries: map<string, Entry<V>>, allowUnknown: bool, node: Node, matched: set<string>) {
    if node.name !in entries then allowUnknown
    else if entries[node.name].Callback? then entries[node.name].accepts(node)
    else node.name !in matched && entries[node.name].mapper(node).Some?
  }

  ghost predicate AllFine<V>(entries: map<string, Entry<V>>, allowUnknown: bool, nodes: seq<Node>, n: nat)
    requires n <= |nodes|
  {
    forall i :: 0 <= i < n ==> NodeFine(entries, allowUnknown, nodes, i)
  }

  /** Each directive has been handled once, in order, and in the way its entry says. */
  ghost predicate Each<V>(entries: map<string, Entry<V>>, nodes: seq<Node>, done: seq<Handling>) {
    |done| == |nodes| && forall i :: 0 <= i < |nodes| ==> done[i] == HandlingOf(entries, nodes[i])
  }

  /** An entry has a value exactly when its directive has been met, and it is that of the directive. */
  ghost predicate Made<V>(entries: map<string, Entry<V>>, nodes: seq<Node>, n: nat, values: map<string, V>, name: string)
    requires n <= |nodes|
  {
    if name in entries && entries[name].Mapped? && Present(nodes, n, name) then
      name in values && InBlock(entries[name], nodes, n, name) == Some(values[name])
    else name !in values
  }

  ghost predicate Assigned<V>(entries: map<string, Entry<V>>, values: map<string, V>, before: map<string, V>, after: map<string, V>,
                              name: string) {
    if name in values && name in entries && entries[name].Mapped? && entries[name].stored then
      name in after && after[name] == values[name]
    else SameAt(before, after, name)
  }

  /** Where an entry stands after `n` directives. */
  ghost predicate Standing<V>(entries: map<string, Entry<V>>, nodes: seq<Node>, n: nat, matched: set<string>, values: map<string, V>,
                              before: map<string, V>, stores: map<string, V>, name: string)
    requires n <= |nodes|
  {
    && (name in matched <==> name in entries && Present(nodes, n, name))
    && Made(entries, nodes, n, values, name) && Assigned(entries, values, before, stores, name)
  }

  ghost predicate AllStanding<V>(entries: map<string, Entry<V>>, nodes: seq<Node>, n: nat, matched: set<string>, values: map<string, V>,
                                 before: map<string, V>, stores: map<string, V>)
    requires n <= |nodes|
  {
    forall name :: Standing(entries, nodes, n, matched, values, before, stores, name)
  }

  /** What a directive does to the values and the variables. */
  ghost predicate Taken<V>(entries: map<string, Entry<V>>, node: Node, values: map<string, V>, values': map<string, V>, stores: map<string, V>,
                           stores': map<string, V>) {
    if HandlingOf(entries, node) != ValueMade then values' == values && stores' == stores
    else
      var made := entries[node.name].mapper(node);
      && made.Some? && values' == values[node.name := made.value]
      && stores' == if entries[node.name].stored then stores[node.name := made.value] else stores
  }

  lemma {:induction false} FineSoFar<V>(entries: map<string, Entry<V>>, allowUnknown: bool, nodes: seq<Node>, i: nat, matched: set<string>,
                                        values: map<string, V>, before: map<string, V>, stores: map<string, V>)
    requires i < |nodes| && AllStanding(entries, nodes, i, matched, values, before, stores)
    ensures HandledFine(entries, allowUnknown, nodes[i], matched) <==> NodeFine(entries, allowUnknown, nodes, i)
  {
    assert Standing(entries, nodes, i, matched, values, before, stores, nodes[i].name);
  }

  lemma {:induction false} StandingNext<V>(entries: map<string, Entry<V>>, allowUnknown: bool, nodes: seq<Node>, i: nat, matched: set<string>,
                                           values: map<string, V>, stores: map<string, V>, matched': set<string>, values': map<string, V>,
                                           stores': map<string, V>, before: map<string, V>)
    requires i < |nodes| && NodeFine(entries, allowUnknown, nodes, i) && Taken(entries, nodes[i], values, values', stores, stores')
    requires matched' == if nodes[i].name in entries then matched + {nodes[i].name} else matched
    requires AllStanding(entries, nodes, i, matched, values, before, stores)
    ensures AllStanding(entries, nodes, i + 1, matched', values', before, stores')
  {
    var n := i + 1;
    forall name ensures Standing(entries, nodes, n, matched', values', before, stores', name) {
      assert Standing(entries, nodes, i, matched, values, before, stores, name);
      PresentNext(nodes, i, name);
      MadeNext(entries, allowUnknown, nodes, i, values, values', name);
    }
  }

  lemma {:induction false} PresentNext(nodes: seq<Node>, i: nat, name: string)
    requires i < |nodes|
    ensures Present(nodes, i + 1, name) <==> Present(nodes, i, name) || nodes[i].name == name
  {
  }

  lemma {:induction false} MadeNext<V>(entries: map<string, Entry<V>>, allowUnknown: bool, nodes: seq<Node>, i: nat, before: map<string, V>,
                    after: map<string, V>, name: string)
    requires i < |nodes| && Made(entries, nodes, i, before, name) && NodeFine(entries, allowUnknown, nodes, i)
    requires HandlingOf(entries, nodes[i]) == ValueMade ==>
               after == before[nodes[i].name := entries[nodes[i].name].mapper(nodes[i]).value]
    requires HandlingOf(entries, nodes[i]) != ValueMade ==> after == before
    ensures Made(entries, nodes, i + 1, after, name)
  {
  }

  lemma {:induction false} EachNext<V>(entries: map<string, Entry<V>>, nodes: seq<Node>, i: nat, done: seq<Handling>, h: Handling)
    requires i < |nodes| && Each(entries, nodes[..i], done) && h == HandlingOf(entries, nodes[i])
    ensures Each(entries, nodes[..i + 1], done + [h])
    ensures Unknown(entries, nodes[..i + 1]) == Unknown(entries, nodes[..i]) + if nodes[i].name in entries then [] else [nodes[i]]
  {
    assert Front(nodes[..i + 1]) == nodes[..i] && Last(nodes[..i + 1]) == nodes[i];
    var less, more := nodes[..i], nodes[..i + 1];
    assert forall k :: 0 <= k < i ==> more[k] == less[k];
  }

  /** The entry whose turn it is. */
  lemma {:induction false} PlacedNow<V>(entries: map<string, Entry<V>>, globals: map<string, V>, zero: V -> bool, nodes: seq<Node>,
                      values: map<string, V>, values': map<string, V>, before: map<string, V>, stores: map<string, V>,
                      stores': map<string, V>, name: string)
    requires name in entries && Made(entries, nodes, |nodes|, values, name) && Assigned(entries, values, before, stores, name)
    requires if Present(nodes, |nodes|, name) || entries[name].Callback? then values' == values && stores' == stores
             else
               var filled := Fill(entries[name], name, globals);
               && !filled.Failed?
               && values' == (if filled.Value? && !zero(filled.value) then values[name := filled.value] else values)
               && stores' == (if filled.Value? && entries[name].stored then stores[name := filled.value] else stores)
    ensures Placed(entries, globals, zero, nodes, values', before, stores', name) && EntryFine(entries, globals, nodes, name)
  {
  }

  /** The other entries are not touched. */
  lemma {:induction false} PlacedStill<V>(entries: map<string, Entry<V>>, globals: map<string, V>, zero: V -> bool, nodes: seq<Node>,
                        values: map<string, V>, values': map<string, V>, before: map<string, V>, stores: map<string, V>,
                        stores': map<string, V>, name: string, todo: set<string>)
    requires forall other :: other != name ==> SameAt(values, values', other) && SameAt(stores, stores', other)
    requires forall other :: other in todo ==> Made(entries, nodes, |nodes|, values, other) && Assigned(entries, values, before, stores, other)
    requires forall other :: other !in todo ==> Placed(entries, globals, zero, nodes, values, before, stores, other)
    ensures forall other :: other in todo && other != name ==>
              Made(entries, nodes, |nodes|, values', other) && Assigned(entries, values', before, stores', other)
    ensures forall other :: other !in todo && other != name ==> Placed(entries, globals, zero, nodes, values', before, stores', other)
  {
    forall other | other != name
      ensures other in todo ==> Made(entries, nodes, |nodes|, values', other) && Assigned(entries, values', before, stores', other)
      ensures other !in todo ==> Placed(entries, globals, zero, nodes, values', before, stores', other)
    {
      assert SameAt(values, values', other) && SameAt(stores, stores', other);
    }
  }
}
