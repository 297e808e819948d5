/** Chains of lookup tables: each step maps every key found so far, and steps may be optional. */
module TableChain {
  import opened Common

  /** A table gives any number of values for a key, or at most one. */
  datatype Table = Multi(all: string -> Result<seq<string>, string>) | Single(one: string -> Result<Option<string>, string>)

  datatype Step = Step(table: Table, optional: bool)

  /** The values of one key; none means that the table has no entry for it. */
  function Values(table: Table, key: string): Result<seq<string>, string> {
    match table
    case Multi(all) => all(key)
    case Single(one) =>
      var r := one(key);
      if r.Err? then Err(r.error) else if r.value.None? then Ok([]) else Ok([r.value.value])
  }

  /** What a table makes of a whole list of keys. */
  datatype Answer = Failed(error: string) | Missing | Found(values: seq<string>)

  function Ask(table: Table, keys: seq<string>): Answer {
    if keys == [] then Found([])
    else
      var first := Values(table, keys[0]);
      if first.Err? then Failed(first.error)
      else if first.value == [] then Missing
      else
        var rest := Ask(table, keys[1..]);
        if rest.Found? then Found(first.value + rest.values) else rest
  }

  /** One step: all keys map, else the whole step is skipped if it is optional, else nothing is left. */
  function Apply(step: Step, keys: seq<string>): Result<seq<string>, string> {
    match Ask(step.table, keys)
    case Failed(e) => Err(e)
    case Missing => Ok(if step.optional then keys else [])
    case Found(values) => Ok(values)
  }

  function Then(r: Result<seq<string>, string>, step: Step): Result<seq<string>, string> {
    if r.Err? then r else Apply(step, r.value)
  }

  /** The plain left fold of the steps. */
  function Run(chain: seq<Step>, start: Result<seq<string>, string>): Result<seq<string>, string> {
    if chain == [] then start else Run(chain[1..], Then(start, chain[0]))
  }

  /** A chain is itself a table with any number of values. */
  function AsTable(chain: seq<Step>): Table {
    Multi(key => Run(chain, Ok([key])))
  }

  // ---------------------------------------------------------------- what a step does with all keys

  predicate HasValues(table: Table, key: string) {
    Values(table, key).Ok? && Values(table, key).value != []
  }

  function AllValues(table: Table, keys: seq<string>): seq<string>
    requires forall i :: 0 <= i < |keys| ==> HasValues(table, keys[i])
  {
    if keys == [] then []
    else
      assert HasValues(table, keys[0]);
      Values(table, keys[0]).value + AllValues(table, keys[1..])
  }

  /** The first of the keys that has no values. */
  ghost predicate FirstWithout(table: Table, keys: seq<string>, i: nat) {
    i < |keys| && !HasValues(table, keys[i]) && forall j :: 0 <= j < i ==> HasValues(table, keys[j])
  }

  /** All keys have values, and these are found in their order, or the first that has none decides: the step fails
      if the table failed there, and finds nothing if it did not. */
  lemma {:induction false} AskExactly(table: Table, keys: seq<string>)
    ensures Ask(table, keys).Found? <==> forall i :: 0 <= i < |keys| ==> HasValues(table, keys[i])
    ensures Ask(table, keys).Found? ==> Ask(table, keys).values == AllValues(table, keys)
    ensures forall i: nat :: FirstWithout(table, keys, i) ==>
              Ask(table, keys) == if Values(table, keys[i]).Err? then Failed(Values(table, keys[i]).error) else Missing
    decreases |keys|
  {
    if keys != [] {
      var rest := keys[1..];
      AskExactly(table, rest);
      assert forall i :: 0 <= i < |rest| ==> rest[i] == keys[i + 1];
      assert forall i :: 0 < i < |keys| ==> keys[i] == rest[i - 1];
      forall i: nat | FirstWithout(table, keys, i)
        ensures Ask(table, keys) == if Values(table, keys[i]).Err? then Failed(Values(table, keys[i]).error) else Missing
      {
        assert i > 0 ==> FirstWithout(table, rest, i - 1);
      }
    }
  }

  // ---------------------------------------------------------------- chains of single-valued tables

  ghost predicate AllSingle(chain: seq<Step>) {
    forall i :: 0 <= i < |chain| ==> chain[i].table.Single?
  }

  /** One key is followed from table to table: its value is the next key, and where there is none an optional
      step leaves the key as it is. */
  function Follow(chain: seq<Step>, key: string): Result<Option<string>, string>
    requires AllSingle(chain)
  {
    if chain == [] then Ok(Some(key))
    else
      match chain[0].table.one(key)
      case Err(e) => Err(e)
      case Ok(Some(value)) => Follow(chain[1..], value)
      case Ok(None) => if chain[0].optional then Follow(chain[1..], key) else Ok(None)
  }

  lemma {:induction false} SinglesFollow(chain: seq<Step>, key: string)
    requires AllSingle(chain)
    ensures Run(chain, Ok([key])) == match Follow(chain, key)
                                     case Err(e) => Err(e)
                                     case Ok(Some(value)) => Ok([value])
                                     case Ok(None) => Ok([])
    decreases |chain|
  {
    if chain != [] {
      var step := chain[0];
      assert [key][1..] == [];
      match step.table.one(key)
      case Err(e) =>
        assert Then(Ok([key]), step) == Err(e);
        ErrorStays(chain[1..], e);
      case Ok(Some(value)) =>
        assert Ask(step.table, []) == Found([]) && [value] + [] == [value];
        assert Ask(step.table, [key]) == Found([value]);
        SinglesFollow(chain[1..], value);
      case Ok(None) =>
        if step.optional {
          SinglesFollow(chain[1..], key);
        } else {
          NothingStaysNothing(chain[1..]);
        }
    }
  }

  // ---------------------------------------------------------------- the early exits do not matter

  lemma {:induction false} NothingStaysNothing(chain: seq<Step>)
    ensures Run(chain, Ok([])) == Ok([])
  {
    if chain != [] {
      assert Then(Ok([]), chain[0]) == Ok([]);
      NothingStaysNothing(chain[1..]);
    }
  }

  lemma {:induction false} ErrorStays(chain: seq<Step>, e: string)
    ensures Run(chain, Err(e)) == Err(e)
  {
    if chain != [] {
      ErrorStays(chain[1..], e);
    }
  }

  function Onto(values: seq<string>, answer: Answer): Answer {
    if answer.Found? then Found(values + answer.values) else answer
  }

  /** The answer so far: `values` for the keys before `i`, and what the table makes of the others. */
  ghost predicate AskedTo(table: Table, keys: seq<string>, i: nat, values: seq<string>) {
    i <= |keys| && Onto(values, Ask(table, keys[i..])) == Ask(table, keys)
  }

  lemma {:induction false} AskNext(table: Table, keys: seq<string>, i: nat, values: seq<string>)
    requires AskedTo(table, keys, i, values) && i < |keys|
    ensures var r := Values(table, keys[i]);
            if r.Err? then Ask(table, keys) == Failed(r.error)
            else if r.value == [] then Ask(table, keys) == Missing
            else AskedTo(table, keys, i + 1, values + r.value)
  {
    var r, rest := Values(table, keys[i]), Ask(table, keys[i + 1..]);
    assert keys[i..][0] == keys[i] && keys[i..][1..] == keys[i + 1..];
    if r.Ok? && rest.Found? {
      ConcatAssoc(values, r.value, rest.values);
    }
  }

  /** The inner loop, over the keys of one step: it stops at the first key without values. */
  method AskAll(table: Table, keys: seq<string>) returns (answer: Answer)
    ensures answer == Ask(table, keys)
  {
    var values := [];
    var i := 0;
    assert keys[0..] == keys && Onto([], Ask(table, keys)) == Ask(table, keys);
    while i < |keys|
      invariant 0 <= i <= |keys| && AskedTo(table, keys, i, values)
    {
      AskNext(table, keys, i, values);
      var r := Values(table, keys[i]);
      if r.Err? {
        return Failed(r.error);
      }
      if |r.value| == 0 {
        return Missing;
      }
      values := values + r.value;
      i := i + 1;
    }
    assert keys[i..] == [] && values + [] == values;
    return Found(values);
  }

  /** The lookup with its early exits is the left fold. */
  method LookupMulti(chain: seq<Step>, key: string) returns (r: Result<seq<string>, string>)
    ensures r == Run(chain, Ok([key]))
  {
    var result := [key];
    var i := 0;
    assert chain[0..] == chain;
    while i < |chain|
      invariant 0 <= i <= |chain| && Run(chain[i..], Ok(result)) == Run(chain, Ok([key]))
    {
      assert chain[i..][0] == chain[i] && chain[i..][1..] == chain[i + 1..];
      var answer := AskAll(chain[i].table, result);
      match answer {
        case Failed(e) =>
          ErrorStays(chain[i + 1..], e);
          return Err(e);
        case Missing =>
          if !chain[i].optional {
            NothingStaysNothing(chain[i + 1..]);
            return Ok([]);
          }
        case Found(values) =>
          result := values;
      }
      i := i + 1;
    }
    return Ok(result);
  }

  /** Looking up a single value takes the first of many. */
  method Lookup(chain: seq<Step>, key: string) returns (r: Result<Option<string>, string>)
    ensures var all := Run(chain, Ok([key]));
            && (r.Err? <==> all.Err?)
            && (all.Ok? ==> r == Ok(if all.value == [] then None else Some(all.value[0])))
  {
    var all := LookupMulti(chain, key);
    if all.Err? {
      return Err(all.error);
    }
    return Ok(if all.value == [] then None else Some(all.value[0]));
  }

  /** Running a concatenated chain is running one chain, then the other. */
  lemma {:induction false} RunConcat(a: seq<Step>, b: seq<Step>, start: Result<seq<string>, string>)
    ensures Run(a + b, start) == Run(b, Run(a, start))
  {
    if a == [] {
      assert a + b == b;
    } else {
      assert (a + b)[1..] == a[1..] + b;
      RunConcat(a[1..], b, Then(start, a[0]));
    }
  }

  // ---------------------------------------------------------------- nested chains

  ghost predicate NeverFails(table: Table) {
    forall key :: Values(table, key).Ok?
  }

  /** Every step is required and no table fails. */
  ghost predicate Strict(chain: seq<Step>) {
    forall i :: 0 <= i < |chain| ==> !chain[i].optional && NeverFails(chain[i].table)
  }

  /** All-or-nothing: the values of the parts, joined, unless one of the parts has none. */
  function Both(a: Answer, b: Answer): Answer {
    if a.Found? && b.Found? then Found(a.values + b.values) else Missing
  }

  lemma {:induction false} AskSplits(table: Table, a: seq<string>, b: seq<string>)
    requires NeverFails(table)
    ensures !Ask(table, a).Failed?
    ensures Ask(table, a + b) == Both(Ask(table, a), Ask(table, b))
  {
    if a == [] {
      assert a + b == b;
      AskNeverFails(table, b);
      assert Ask(table, b).Found? ==> [] + Ask(table, b).values == Ask(table, b).values;
    } else {
      assert (a + b)[1..] == a[1..] + b;
      AskSplits(table, a[1..], b);
      var first := Values(table, a[0]).value;
      if Ask(table, a).Found? && Ask(table, b).Found? {
        ConcatAssoc(first, Ask(table, a[1..]).values, Ask(table, b).values);
      }
    }
  }

  lemma {:induction false} AskNeverFails(table: Table, keys: seq<string>)
    requires NeverFails(table)
    ensures !Ask(table, keys).Failed?
    ensures Ask(table, keys) == Found([]) <==> keys == []
  {
    if keys != [] {
      AskNeverFails(table, keys[1..]);
    }
  }

  /** A strict chain treats the two parts of a list apart, and keeps only what both have. */
  lemma {:induction false} RunSplits(chain: seq<Step>, a: seq<string>, b: seq<string>)
    requires Strict(chain) && a != [] && b != []
    ensures var ra, rb, r := Run(chain, Ok(a)), Run(chain, Ok(b)), Run(chain, Ok(a + b));
            ra.Ok? && rb.Ok? && r == Ok(if ra.value == [] || rb.value == [] then [] else ra.value + rb.value)
    decreases |chain|
  {
    if chain != [] {
      var table := chain[0].table;
      AskSplits(table, a, b);
      AskNeverFails(table, a);
      AskNeverFails(table, b);
      assert Strict(chain[1..]);
      var x, y := Ask(table, a), Ask(table, b);
      if x.Found? && y.Found? {
        RunSplits(chain[1..], x.values, y.values);
      } else {
        NothingStaysNothing(chain[1..]);
        StrictRuns(chain[1..], Then(Ok(a), chain[0]).value);
        StrictRuns(chain[1..], Then(Ok(b), chain[0]).value);
      }
    }
  }

  lemma {:induction false} StrictRuns(chain: seq<Step>, keys: seq<string>)
    requires Strict(chain)
    ensures Run(chain, Ok(keys)).Ok?
    decreases |chain|
  {
    if chain != [] {
      AskNeverFails(chain[0].table, keys);
      StrictRuns(chain[1..], Then(Ok(keys), chain[0]).value);
    }
  }

  /** Asking a strict chain as a table, key by key, is running it on the whole list. */
  lemma {:induction false} AskChain(chain: seq<Step>, keys: seq<string>)
    requires Strict(chain)
    ensures Apply(Step(AsTable(chain), false), keys) == Run(chain, Ok(keys))
  {
    var table := AsTable(chain);
    if keys == [] {
      NothingStaysNothing(chain);
    } else {
      StrictRuns(chain, [keys[0]]);
      StrictRuns(chain, keys);
      AskChain(chain, keys[1..]);
      assert keys == [keys[0]] + keys[1..];
      if keys[1..] == [] {
        AskOne(table, keys[0]);
        assert keys == [keys[0]];
      } else {
        RunSplits(chain, [keys[0]], keys[1..]);
        AsTableNeverFails(chain);
        AskNeverFails(table, keys[1..]);
      }
    }
  }

  lemma {:induction false} AsTableNeverFails(chain: seq<Step>)
    requires Strict(chain)
    ensures NeverFails(AsTable(chain))
  {
    forall key ensures Values(AsTable(chain), key).Ok? {
      StrictRuns(chain, [key]);
    }
  }

  /** A required step that is itself a strict chain can be replaced by the steps of that chain. */
  lemma {:induction false} NestedChainFlattens(before: seq<Step>, inner: seq<Step>, after: seq<Step>, key: string)
    requires Strict(inner)
    ensures Run(before + [Step(AsTable(inner), false)] + after, Ok([key])) == Run(before + inner + after, Ok([key]))
  {
    var nested := [Step(AsTable(inner), false)];
    var start := Run(before, Ok([key]));
    RunConcat(before + nested, after, Ok([key]));
    RunConcat(before, nested, Ok([key]));
    RunConcat(before + inner, after, Ok([key]));
    RunConcat(before, inner, Ok([key]));
    if start.Err? {
      ErrorStays(inner, start.error);
      ErrorStays(nested, start.error);
    } else {
      AskChain(inner, start.value);
      assert Run(nested, start) == Run(nested[1..], Then(start, nested[0])) == Then(start, nested[0]);
    }
  }

  // ---------------------------------------------------------------- both conditions are needed

  /** "ab" to "a" and "b"; "a" to "x"; nothing for anything else. */
  function Sample(key: string): Result<seq<string>, string> {
    if key == "ab" then Ok(["a", "b"]) else if key == "a" then Ok(["x"]) else Ok([])
  }

  /** "ab" to "a" and "b"; "a" to "c", which has no entry; asking for "b" fails. */
  function Faulty(key: string): Result<seq<string>, string> {
    if key == "ab" then Ok(["a", "b"]) else if key == "a" then Ok(["c"]) else if key == "b" then Err("down") else Ok([])
  }

  /** With an optional inner step the two differ: one key is mapped and the other kept, or both kept. */
  lemma {:induction false} OptionalStepsDoNotFlatten()
    ensures var table := Multi(Sample);
            var before, inner := [Step(table, false)], [Step(table, true)];
            && Run(before + [Step(AsTable(inner), false)], Ok(["ab"])) == Ok(["x", "b"])
            && Run(before + inner, Ok(["ab"])) == Ok(["a", "b"])
  {
    var table := Multi(Sample);
    var before, inner := [Step(table, false)], [Step(table, true)];
    var nested := [Step(AsTable(inner), false)];
    RunConcat(before, nested, Ok(["ab"]));
    RunConcat(before, inner, Ok(["ab"]));
    OneStep(before[0], ["ab"]);
    OneStep(inner[0], ["a", "b"]);
    OneStep(inner[0], ["a"]);
    OneStep(inner[0], ["b"]);
    OneStep(nested[0], ["a", "b"]);
    AskOne(table, "ab");
    AskOne(table, "a");
    AskOne(table, "b");
    AskTwo(table, "a", "b", Ok(["x"]), Ok([]));
    AskTwo(AsTable(inner), "a", "b", Ok(["x"]), Ok(["b"]));
    assert ["x"] + ["b"] == ["x", "b"];
  }

  lemma {:induction false} OneStep(step: Step, keys: seq<string>)
    ensures Run([step], Ok(keys)) == Apply(step, keys)
  {
    assert [step][1..] == [];
  }

  lemma {:induction false} AskOne(table: Table, key: string)
    ensures var v := Values(table, key);
            Ask(table, [key]) == if v.Err? then Failed(v.error) else if v.value == [] then Missing else Found(v.value)
  {
    assert [key][1..] == [];
    var v := Values(table, key);
    assert v.Ok? ==> v.value + [] == v.value;
  }

  lemma {:induction false} AskTwo(table: Table, a: string, b: string, v: Result<seq<string>, string>, w: Result<seq<string>, string>)
    requires v == Values(table, a) && w == Values(table, b)
    ensures Ask(table, [a, b])
         == if v.Err? then Failed(v.error) else if v.value == [] then Missing
            else if w.Err? then Failed(w.error) else if w.value == [] then Missing else Found(v.value + w.value)
  {
    assert [a, b][1..] == [b];
    AskOne(table, b);
  }

  /** With a table that fails the two differ: key by key the missing entry is met before the failure. */
  lemma {:induction false} FailuresDoNotFlatten()
    ensures var table := Multi(Faulty);
            var before, inner := [Step(table, false)], [Step(table, false), Step(table, false)];
            && Run(before + [Step(AsTable(inner), false)], Ok(["ab"])) == Ok([])
            && Run(before + inner, Ok(["ab"])) == Err("down")
  {
    var table := Multi(Faulty);
    var step := Step(table, false);
    var before, inner := [step], [step, step];
    var nested := [Step(AsTable(inner), false)];
    RunConcat(before, nested, Ok(["ab"]));
    RunConcat(before, inner, Ok(["ab"]));
    assert inner == [step] + [step];
    RunConcat([step], [step], Ok(["a", "b"]));
    RunConcat([step], [step], Ok(["a"]));
    OneStep(step, ["ab"]);
    OneStep(step, ["a", "b"]);
    OneStep(step, ["a"]);
    OneStep(step, ["c"]);
    OneStep(nested[0], ["a", "b"]);
    AskOne(table, "ab");
    AskOne(table, "a");
    AskOne(table, "c");
    AskTwo(table, "a", "b", Ok(["c"]), Err("down"));
    AskTwo(AsTable(inner), "a", "b", Ok([]), Values(AsTable(inner), "b"));
    ErrorStays([step], "down");
  }
}
