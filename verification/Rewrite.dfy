/** Recipient rewriting: modifiers, groups of modifiers, and the three stages a message goes through. */
module Rewrite {
  import opened Common
  import Address

  type Rewriter = string -> Result<seq<string>, string>

  /** A modifier that does not depend on anything but the address, or a group run in order. */
  datatype Modifier = Single(rcpt: Rewriter, sender: string -> Result<string, string>) | Group(members: seq<Modifier>)

  function Size(m: Modifier): nat {
    match m
    case Single(_, _) => 1
    case Group(members) => 1 + Sizes(members)
  }

  function Sizes(ms: seq<Modifier>): nat {
    if ms == [] then 0 else 1 + Size(ms[0]) + Sizes(ms[1..])
  }

  // ---------------------------------------------------------------- level by level

  function Rcpt(m: Modifier, to: string): Result<seq<string>, string>
    decreases Size(m), 0, 0
  {
    match m
    case Single(rcpt, _) => rcpt(to)
    case Group(members) => Levels(members, [to])
  }

  /** Each modifier in turn rewrites everything the ones before it have made. */
  function Levels(ms: seq<Modifier>, list: seq<string>): Result<seq<string>, string>
    decreases Sizes(ms), 0, 0
  {
    if ms == [] then Ok(list)
    else
      var next := Level(ms[0], list);
      if next.Err? then next else Levels(ms[1..], next.value)
  }

  function Level(m: Modifier, list: seq<string>): Result<seq<string>, string>
    decreases Size(m), 1, |list|
  {
    if list == [] then Ok([])
    else
      var first := Rcpt(m, list[0]);
      if first.Err? then first
      else
        var rest := Level(m, list[1..]);
        if rest.Err? then rest else Ok(first.value + rest.value)
  }

  function Sender(m: Modifier, from: string): Result<string, string>
    decreases Size(m)
  {
    match m
    case Single(_, sender) => sender(from)
    case Group(members) => Senders(members, from)
  }

  function Senders(ms: seq<Modifier>, from: string): Result<string, string>
    decreases Sizes(ms)
  {
    if ms == [] then Ok(from)
    else
      var next := Sender(ms[0], from);
      if next.Err? then next else Senders(ms[1..], next.value)
  }

  lemma {:induction false} LevelAppend(m: Modifier, a: seq<string>, b: seq<string>)
    requires Level(m, a).Ok?
    ensures Level(m, a + b) == if Level(m, b).Err? then Level(m, b) else Ok(Level(m, a).value + Level(m, b).value)
  {
    if a == [] {
      assert a + b == b;
      assert Level(m, b).Ok? ==> [] + Level(m, b).value == Level(m, b).value;
    } else {
      assert (a + b)[1..] == a[1..] + b;
      LevelAppend(m, a[1..], b);
      if Level(m, b).Ok? {
        ConcatAssoc(Rcpt(m, a[0]).value, Level(m, a[1..]).value, Level(m, b).value);
      }
    }
  }

  lemma {:induction false} LevelFails(m: Modifier, a: seq<string>, to: string, b: seq<string>)
    requires Level(m, a).Ok? && Rcpt(m, to).Err?
    ensures Level(m, a + [to] + b) == Rcpt(m, to)
  {
    LevelAppend(m, a, [to] + b);
    assert a + [to] + b == a + ([to] + b);
  }

  lemma {:induction false} LevelOne(m: Modifier, to: string)
    ensures Level(m, [to]) == Rcpt(m, to)
  {
    assert [to][1..] == [];
    assert Rcpt(m, to).Ok? ==> Rcpt(m, to).value + [] == Rcpt(m, to).value;
  }

  /** The code's loops: for each member of the group, for each address so far. */
  method RewriteRcpt(m: Modifier, to: string) returns (r: Result<seq<string>, string>)
    ensures r == Rcpt(m, to)
    decreases Size(m), 0
  {
    match m {
      case Single(rcpt, _) =>
        r := rcpt(to);
      case Group(members) =>
        var result := [to];
        var i := 0;
        assert members[0..] == members;
        while i < |members|
          invariant 0 <= i <= |members| && Levels(members[i..], result) == Levels(members, [to])
        {
          assert members[i..][0] == members[i] && members[i..][1..] == members[i + 1..];
          MemberSmaller(members, i);
          var next := RewriteAll(members[i], result);
          if next.Err? {
            return next;
          }
          result := next.value;
          i := i + 1;
        }
        return Ok(result);
    }
  }

  method RewriteAll(m: Modifier, list: seq<string>) returns (r: Result<seq<string>, string>)
    ensures r == Level(m, list)
    decreases Size(m), 1
  {
    var intermediate := [];
    var k := 0;
    while k < |list|
      invariant 0 <= k <= |list| && Level(m, list[..k]) == Ok(intermediate)
    {
      var part := RewriteRcpt(m, list[k]);
      assert list == list[..k] + [list[k]] + list[k + 1..] && list[..k + 1] == list[..k] + [list[k]];
      if part.Err? {
        LevelFails(m, list[..k], list[k], list[k + 1..]);
        return part;
      }
      LevelOne(m, list[k]);
      LevelAppend(m, list[..k], [list[k]]);
      intermediate := intermediate + part.value;
      k := k + 1;
    }
    assert list[..k] == list;
    return Ok(intermediate);
  }

  lemma {:induction false} MemberSmaller(ms: seq<Modifier>, i: nat)
    requires i < |ms|
    ensures Size(ms[i]) < Sizes(ms)
  {
    if i > 0 {
      MemberSmaller(ms[1..], i - 1);
    }
  }

  method RewriteSender(m: Modifier, from: string) returns (r: Result<string, string>)
    ensures r == Sender(m, from)
    decreases Size(m)
  {
    match m {
      case Single(_, sender) =>
        r := sender(from);
      case Group(members) =>
        var mailFrom := from;
        var i := 0;
        assert members[0..] == members;
        while i < |members|
          invariant 0 <= i <= |members| && Senders(members[i..], mailFrom) == Senders(members, from)
        {
          assert members[i..][0] == members[i] && members[i..][1..] == members[i + 1..];
          MemberSmaller(members, i);
          var next := RewriteSender(members[i], mailFrom);
          if next.Err? {
            return next;
          }
          mailFrom := next.value;
          i := i + 1;
        }
        return Ok(mailFrom);
    }
  }

  // ---------------------------------------------------------------- depth first

  function Success<T>(r: Result<T, string>): Option<T> {
    if r.Ok? then Some(r.value) else None
  }

  /** The reference: every address is followed through all modifiers before the next one is looked at. */
  function Deep(m: Modifier, to: string): Option<seq<string>>
    decreases Size(m), 0, 0
  {
    match m
    case Single(rcpt, _) => Success(rcpt(to))
    case Group(members) => Through(members, to)
  }

  function Through(ms: seq<Modifier>, to: string): Option<seq<string>>
    decreases Sizes(ms), 0, 0
  {
    if ms == [] then Some([to])
    else
      var first := Deep(ms[0], to);
      if first.None? then None else Each(ms[1..], first.value)
  }

  function Each(ms: seq<Modifier>, list: seq<string>): Option<seq<string>>
    decreases Sizes(ms), 1, |list|
  {
    if list == [] then Some([]) else Join(Through(ms, list[0]), Each(ms, list[1..]))
  }

  lemma {:induction false} EachConcat(ms: seq<Modifier>, a: seq<string>, b: seq<string>)
    ensures Each(ms, a + b) == Join(Each(ms, a), Each(ms, b))
    decreases |a|
  {
    if a == [] {
      assert a + b == b;
      assert Each(ms, b).Some? ==> [] + Each(ms, b).value == Each(ms, b).value;
    } else {
      assert (a + b)[1..] == a[1..] + b;
      EachConcat(ms, a[1..], b);
      JoinAssoc(Through(ms, a[0]), Each(ms, a[1..]), Each(ms, b));
    }
  }

  lemma {:induction false} EachOfNone(list: seq<string>)
    ensures Each([], list) == Some(list)
  {
    if list != [] {
      EachOfNone(list[1..]);
      assert [list[0]] + list[1..] == list;
    }
  }

  lemma {:induction false} EachOne(ms: seq<Modifier>, to: string)
    ensures Each(ms, [to]) == Through(ms, to)
  {
    assert [to][1..] == [];
    assert Through(ms, to).Some? ==> Through(ms, to).value + [] == Through(ms, to).value;
  }

  /** One level, followed by the rest depth first, is depth first on the whole list. */
  lemma {:induction false} LevelThenEach(ms: seq<Modifier>, list: seq<string>)
    requires ms != []
    ensures Each(ms, list) == if Level(ms[0], list).Err? then None else Each(ms[1..], Level(ms[0], list).value)
    decreases Sizes(ms), 0, |list|
  {
    if list != [] {
      RcptIsDeep(ms[0], list[0]);
      LevelThenEach(ms, list[1..]);
      var first, rest := Rcpt(ms[0], list[0]), Level(ms[0], list[1..]);
      if first.Ok? && rest.Ok? {
        EachConcat(ms[1..], first.value, rest.value);
      }
    }
  }

  lemma {:induction false} LevelsIsEach(ms: seq<Modifier>, list: seq<string>)
    ensures Success(Levels(ms, list)) == Each(ms, list)
    decreases Sizes(ms), 1, 0
  {
    if ms == [] {
      EachOfNone(list);
    } else {
      LevelThenEach(ms, list);
      var next := Level(ms[0], list);
      if next.Ok? {
        LevelsIsEach(ms[1..], next.value);
      }
    }
  }

  /** The level-by-level expansion succeeds exactly when the depth-first one does, with the same list. */
  lemma {:induction false} RcptIsDeep(m: Modifier, to: string)
    ensures Success(Rcpt(m, to)) == Deep(m, to)
    decreases Size(m), 0, 0
  {
    match m {
      case Single(_, _) =>
      case Group(members) =>
        LevelsIsEach(members, [to]);
        EachOne(members, to);
    }
  }

  // ---------------------------------------------------------------- nested groups

  function Flat(ms: seq<Modifier>): seq<Modifier>
    decreases Sizes(ms)
  {
    if ms == [] then [] else FlatOne(ms[0]) + Flat(ms[1..])
  }

  function FlatOne(m: Modifier): seq<Modifier>
    decreases Size(m)
  {
    match m
    case Single(_, _) => [m]
    case Group(inner) => Flat(inner)
  }

  lemma {:induction false} FlatIsFlat(ms: seq<Modifier>)
    ensures forall m :: m in Flat(ms) ==> m.Single?
    decreases Sizes(ms)
  {
    if ms != [] {
      FlatIsFlat(ms[1..]);
      match ms[0] {
        case Single(_, _) =>
        case Group(inner) =>
          assert Size(ms[0]) == 1 + Sizes(inner);
          FlatIsFlat(inner);
      }
    }
  }

  lemma {:induction false} ThroughConcat(a: seq<Modifier>, b: seq<Modifier>, to: string)
    ensures Through(a + b, to) == if Through(a, to).None? then None else Each(b, Through(a, to).value)
    decreases |a|, 0, 0
  {
    if a == [] {
      assert a + b == b;
      EachOne(b, to);
    } else {
      assert (a + b)[1..] == a[1..] + b;
      var first := Deep(a[0], to);
      if first.Some? {
        EachThenEach(a[1..], b, first.value);
      }
    }
  }

  lemma {:induction false} EachThenEach(a: seq<Modifier>, b: seq<Modifier>, list: seq<string>)
    ensures Each(a + b, list) == if Each(a, list).None? then None else Each(b, Each(a, list).value)
    decreases |a|, 1, |list|
  {
    if list != [] {
      ThroughConcat(a, b, list[0]);
      EachThenEach(a, b, list[1..]);
      var first, rest := Through(a, list[0]), Each(a, list[1..]);
      if first.Some? && rest.Some? {
        EachConcat(b, first.value, rest.value);
      }
    }
  }

  lemma {:induction false} FlatThrough(ms: seq<Modifier>, to: string)
    ensures Through(Flat(ms), to) == Through(ms, to)
    decreases Sizes(ms), 0, 0
  {
    if ms != [] {
      var head := FlatOne(ms[0]);
      ThroughConcat(head, Flat(ms[1..]), to);
      match ms[0] {
        case Single(_, _) =>
          assert [ms[0]][1..] == [];
          if Deep(ms[0], to).Some? {
            EachOfNone(Deep(ms[0], to).value);
          }
        case Group(inner) =>
          assert Size(ms[0]) == 1 + Sizes(inner);
          FlatThrough(inner, to);
      }
      assert Through(head, to) == Deep(ms[0], to);
      if Deep(ms[0], to).Some? {
        FlatEach(ms[1..], Deep(ms[0], to).value);
      }
    }
  }

  lemma {:induction false} FlatEach(ms: seq<Modifier>, list: seq<string>)
    ensures Each(Flat(ms), list) == Each(ms, list)
    decreases Sizes(ms), 1, |list|
  {
    if list != [] {
      FlatThrough(ms, list[0]);
      FlatEach(ms, list[1..]);
    }
  }

  /** Groups inside groups can be dissolved: the rewriting succeeds for the same recipients, with the same list. */
  lemma {:induction false} NestedGroupsDissolve(ms: seq<Modifier>, to: string)
    ensures Success(Rcpt(Group(Flat(ms)), to)) == Success(Rcpt(Group(ms), to))
  {
    RcptIsDeep(Group(Flat(ms)), to);
    RcptIsDeep(Group(ms), to);
    FlatThrough(ms, to);
  }

  lemma {:induction false} SendersConcat(a: seq<Modifier>, b: seq<Modifier>, from: string)
    ensures Senders(a + b, from) == if Senders(a, from).Err? then Senders(a, from) else Senders(b, Senders(a, from).value)
    decreases |a|
  {
    if a == [] {
      assert a + b == b;
    } else {
      assert (a + b)[1..] == a[1..] + b;
      if Sender(a[0], from).Ok? {
        SendersConcat(a[1..], b, Sender(a[0], from).value);
      }
    }
  }

  /** For senders too groups inside groups can be dissolved, errors included. */
  lemma {:induction false} NestedSendersDissolve(ms: seq<Modifier>, from: string)
    ensures Senders(Flat(ms), from) == Senders(ms, from)
    decreases Sizes(ms)
  {
    if ms != [] {
      SendersConcat(FlatOne(ms[0]), Flat(ms[1..]), from);
      match ms[0] {
        case Single(_, _) =>
          assert [ms[0]][1..] == [];
        case Group(inner) =>
          assert Size(ms[0]) == 1 + Sizes(inner);
          NestedSendersDissolve(inner, from);
      }
      assert Senders(FlatOne(ms[0]), from) == Sender(ms[0], from);
      if Sender(ms[0], from).Ok? {
        NestedSendersDissolve(ms[1..], Sender(ms[0], from).value);
      }
    }
  }

  // ---------------------------------------------------------------- the three stages

  /** The pipeline's own loops: the global group on the recipient, the source group on each result, and
      on each result of that the group of the block it is routed to. */
  function Stages(global: Modifier, source: Modifier, block: string -> Modifier, to: string): Result<seq<string>, string> {
    var first := Rcpt(global, to);
    if first.Err? then first
    else
      var second := Level(source, first.value);
      if second.Err? then second else Routed(block, second.value)
  }

  function Routed(block: string -> Modifier, list: seq<string>): Result<seq<string>, string> {
    if list == [] then Ok([])
    else
      var first := Rcpt(block(list[0]), list[0]);
      if first.Err? then first
      else
        var rest := Routed(block, list[1..]);
        if rest.Err? then rest else Ok(first.value + rest.value)
  }

  /** Routing and the block's group, as one modifier. */
  function ByBlock(block: string -> Modifier): Modifier {
    Single(to => Rcpt(block(to), to), from => Ok(from))
  }

  lemma {:induction false} RoutedIsLevel(block: string -> Modifier, list: seq<string>)
    ensures Routed(block, list) == Level(ByBlock(block), list)
  {
    if list != [] {
      RoutedIsLevel(block, list[1..]);
    }
  }

  /** The three stages are one group: depth first through the global group, the source group and the
      group of the block. */
  lemma {:induction false} StagesCompose(global: Modifier, source: Modifier, block: string -> Modifier, to: string)
    ensures Success(Stages(global, source, block, to)) == Deep(Group([global, source, ByBlock(block)]), to)
  {
    RcptIsDeep(Group([global, source, ByBlock(block)]), to);
    LevelsThree(global, source, ByBlock(block), [to]);
    LevelOne(global, to);
    if Rcpt(global, to).Ok? && Level(source, Rcpt(global, to).value).Ok? {
      RoutedIsLevel(block, Level(source, Rcpt(global, to).value).value);
    }
  }

  lemma {:induction false} LevelsThree(a: Modifier, b: Modifier, c: Modifier, list: seq<string>)
    ensures Levels([a, b, c], list)
         == if Level(a, list).Err? then Level(a, list)
            else if Level(b, Level(a, list).value).Err? then Level(b, Level(a, list).value)
            else Level(c, Level(b, Level(a, list).value).value)
  {
    assert [a, b, c][1..] == [b, c] && [b, c][1..] == [c] && [c][1..] == [];
    if Level(a, list).Ok? {
      var second := Level(b, Level(a, list).value);
      if second.Ok? {
        assert Levels([c], second.value) == Level(c, second.value);
      }
      assert Levels([b, c], Level(a, list).value) == if second.Err? then second else Level(c, second.value);
    }
  }

  // ---------------------------------------------------------------- no recipient is lost

  ghost predicate NeverEmpty(m: Modifier) {
    match m
    case Single(rcpt, _) => forall to :: rcpt(to).Ok? ==> rcpt(to).value != []
    case Group(members) => forall i :: 0 <= i < |members| ==> NeverEmpty(members[i])
  }

  lemma {:induction false} RcptNotEmpty(m: Modifier, to: string)
    requires NeverEmpty(m)
    ensures Rcpt(m, to).Ok? ==> Rcpt(m, to).value != []
    decreases Size(m), 0, 0
  {
    if m.Group? {
      LevelsNotEmpty(m.members, [to]);
    }
  }

  lemma {:induction false} LevelsNotEmpty(ms: seq<Modifier>, list: seq<string>)
    requires list != [] && forall i :: 0 <= i < |ms| ==> NeverEmpty(ms[i])
    ensures Levels(ms, list).Ok? ==> Levels(ms, list).value != []
    decreases Sizes(ms), 0, 0
  {
    if ms != [] {
      RcptNotEmpty(ms[0], list[0]);
      var next := Level(ms[0], list);
      if next.Ok? {
        LevelsNotEmpty(ms[1..], next.value);
      }
    }
  }

  /** If no modifier answers with an empty list, no recipient vanishes on its way through the stages. */
  lemma {:induction false} StagesNotEmpty(global: Modifier, source: Modifier, block: string -> Modifier, to: string)
    requires NeverEmpty(global) && NeverEmpty(source) && forall x :: NeverEmpty(block(x))
    ensures Stages(global, source, block, to).Ok? ==> Stages(global, source, block, to).value != []
  {
    RcptNotEmpty(global, to);
    if Rcpt(global, to).Ok? {
      var first := Rcpt(global, to).value;
      RcptNotEmpty(source, first[0]);
      if Level(source, first).Ok? {
        var second := Level(source, first).value;
        RcptNotEmpty(block(second[0]), second[0]);
      }
    }
  }

  // ---------------------------------------------------------------- the replace_sender and replace_rcpt modifiers

  /** Table lookup and address normalization are the caller's. */
  datatype Replace = Replace(replaceSender: bool, replaceRcpt: bool, table: string -> Result<seq<string>, string>,
                             normalize: string -> Result<string, string>, toASCII: string -> Option<string>)

  const INVALID := "refusing to replace recipient with the invalid address"

  /** A replacement for a local part that is an address of its own, not a quoted local part. */
  predicate WholeAddress(replacement: string) {
    Contains(replacement, "@") && !HasPrefix(replacement, "\"") && !HasSuffix(replacement, "\"")
  }

  function InDomain(replacement: string, domain: string): string {
    if WholeAddress(replacement) then replacement else replacement + "@" + domain
  }

  function AllInDomain(replacements: seq<string>, domain: string): seq<string> {
    seq(|replacements|, i requires 0 <= i < |replacements| => InDomain(replacements[i], domain))
  }

  /** A replacement for a local part that is a whole address must be a valid one. */
  predicate Allowed(r: Replace, replacement: string) {
    WholeAddress(replacement) ==> Address.Valid(replacement, r.toASCII)
  }

  /** What the address becomes: replacements of the whole address if there are any, else of its local part. */
  ghost predicate Replaces(r: Replace, val: string, results: seq<string>) {
    var norm := r.normalize(val);
    && norm.Ok? && r.table(norm.value).Ok?
    && if r.table(norm.value).value != [] then
         results == r.table(norm.value).value && forall i :: 0 <= i < |results| ==> Address.Valid(results[i], r.toASCII)
       else
         var parts := Address.Split(norm.value);
         if parts.Err? then results == [val]
         else
           var locals := r.table(parts.value.0);
           && locals.Ok?
           && (forall i :: 0 <= i < |locals.value| ==> Allowed(r, locals.value[i]))
           && results == if locals.value == [] then [val] else AllInDomain(locals.value, parts.value.1)
  }

  /** Where only the local part is replaced, a replacement that is not itself an address comes with the old
      domain: it splits back into the two. */
  lemma {:induction false} OldDomainKept(r: Replace, val: string, results: seq<string>, i: nat)
    requires Replaces(r, val, results) && r.table(r.normalize(val).value).value == []
    requires var parts := Address.Split(r.normalize(val).value);
             parts.Ok? && parts.value.1 != "" && i < |r.table(parts.value.0).value|
    ensures var parts := Address.Split(r.normalize(val).value).value;
            var replacement := r.table(parts.0).value[i];
            && |results| == |r.table(parts.0).value|
            && (WholeAddress(replacement) ==> results[i] == replacement && Address.Valid(results[i], r.toASCII))
            && (!WholeAddress(replacement) && replacement != "" ==> Address.Split(results[i]) == Ok((replacement, parts.1)))
  {
    var norm := r.normalize(val).value;
    var parts := Address.Split(norm).value;
    var replacement := r.table(parts.0).value[i];
    assert Address.Split(norm) == Ok((parts.0, parts.1));
    Address.SplitExactly(norm, parts.0, parts.1);
    Address.SplitExactly(replacement + "@" + parts.1, replacement, parts.1);
    assert Allowed(r, replacement);
  }

  /** Fails exactly when there is nothing the address may become, and never answers with an empty list. */
  method RewriteAddress(r: Replace, val: string) returns (res: Result<seq<string>, string>)
    ensures res.Ok? ==> Replaces(r, val, res.value) && res.value != []
    ensures res.Err? ==> forall results :: !Replaces(r, val, results)
  {
    var norm := r.normalize(val);
    if norm.Err? {
      return Err("malformed address");
    }
    var whole := r.table(norm.value);
    if whole.Err? {
      return whole;
    }
    if |whole.value| > 0 {
      var valid := AllValid(r, whole.value);
      return if valid then whole else Err(INVALID);
    }
    var parts := Address.Split(norm.value);
    if parts.Err? {
      return Ok([val]);
    }
    var locals := r.table(parts.value.0);
    if locals.Err? {
      return locals;
    }
    if |locals.value| > 0 {
      res := PutInDomain(r, locals.value, parts.value.1);
    } else {
      res := Ok([val]);
    }
  }

  method AllValid(r: Replace, replacements: seq<string>) returns (valid: bool)
    ensures valid <==> forall i :: 0 <= i < |replacements| ==> Address.Valid(replacements[i], r.toASCII)
  {
    var i := 0;
    while i < |replacements|
      invariant 0 <= i <= |replacements|
      invariant forall k :: 0 <= k < i ==> Address.Valid(replacements[k], r.toASCII)
    {
      if !Address.Valid(replacements[i], r.toASCII) {
        return false;
      }
      i := i + 1;
    }
    return true;
  }

  method PutInDomain(r: Replace, replacements: seq<string>, domain: string) returns (res: Result<seq<string>, string>)
    ensures res == if forall i :: 0 <= i < |replacements| ==> Allowed(r, replacements[i])
                   then Ok(AllInDomain(replacements, domain)) else Err(INVALID)
  {
    var results := new string[|replacements|];
    var i := 0;
    while i < |replacements|
      invariant 0 <= i <= |replacements|
      invariant forall k :: 0 <= k < i ==> Allowed(r, replacements[k])
      invariant forall k :: 0 <= k < i ==> results[k] == InDomain(replacements[k], domain)
    {
      if WholeAddress(replacements[i]) && !Address.Valid(replacements[i], r.toASCII) {
        assert !Allowed(r, replacements[i]);
        return Err(INVALID);
      }
      results[i] := InDomain(replacements[i], domain);
      i := i + 1;
    }
    assert results[..] == AllInDomain(replacements, domain);
    return Ok(results[..]);
  }

  /** The sender becomes the first of the replacements, which is always there. */
  method ReplaceSender(r: Replace, from: string) returns (res: Result<string, string>)
    ensures !r.replaceSender ==> res == Ok(from)
    ensures r.replaceSender && res.Ok? ==> exists results :: Replaces(r, from, results) && results != [] && res.value == results[0]
    ensures r.replaceSender && res.Err? ==> forall results :: !Replaces(r, from, results)
  {
    if !r.replaceSender {
      return Ok(from);
    }
    var all := RewriteAddress(r, from);
    if all.Err? {
      return Err(all.error);
    }
    return Ok(all.value[0]);
  }

  method ReplaceRcpt(r: Replace, to: string) returns (res: Result<seq<string>, string>)
    ensures !r.replaceRcpt ==> res == Ok([to])
    ensures r.replaceRcpt && res.Ok? ==> Replaces(r, to, res.value)
    ensures r.replaceRcpt && res.Err? ==> forall results :: !Replaces(r, to, results)
    ensures res.Ok? ==> res.value != []
  {
    if r.replaceRcpt {
      res := RewriteAddress(r, to);
    } else {
      res := Ok([to]);
    }
  }

  /** The modifier answers as one that replaces. */
  ghost predicate ActsAs(r: Replace, m: Modifier)
    requires m.Single?
  {
    forall to :: m.rcpt(to).Ok? ==> if r.replaceRcpt then Replaces(r, to, m.rcpt(to).value) else m.rcpt(to) == Ok([to])
  }

  ghost predicate OfReplacing(m: Modifier) {
    match m
    case Single(_, _) => exists r :: ActsAs(r, m)
    case Group(members) => forall i :: 0 <= i < |members| ==> OfReplacing(members[i])
  }

  lemma {:induction false} ReplacingAnswers(m: Modifier)
    requires OfReplacing(m)
    ensures NeverEmpty(m)
  {
    match m
    case Single(rcpt, _) =>
      var r :| ActsAs(r, m);
      forall to | rcpt(to).Ok? ensures rcpt(to).value != [] {
        assert m.rcpt(to).Ok?;
      }
    case Group(members) =>
      forall i | 0 <= i < |members| ensures NeverEmpty(members[i]) {
        ReplacingAnswers(members[i]);
      }
  }

  /** A group of such modifiers, nested in any way, leaves no recipient without a result. */
  lemma {:induction false} ReplaceNeverEmpty(m: Modifier, to: string)
    requires OfReplacing(m)
    ensures NeverEmpty(m) && (Rcpt(m, to).Ok? ==> Rcpt(m, to).value != [])
  {
    ReplacingAnswers(m);
    RcptNotEmpty(m, to);
  }

  // ---------------------------------------------------------------- state objects of a group

  /** The state objects made for one message: one for each single modifier. */
  datatype State = One(id: nat) | Many(parts: seq<State>)

  function Ids(s: State): seq<nat> {
    match s
    case One(id) => [id]
    case Many(parts) => AllIds(parts)
  }

  function AllIds(parts: seq<State>): seq<nat> {
    if parts == [] then [] else AllIds(Front(parts)) + Ids(Last(parts))
  }

  function Range(lo: nat, hi: nat): seq<nat>
    requires lo <= hi
  {
    seq(hi - lo, k => lo + k)
  }

  /** How often each state object that was ever made has been closed. */
  class Ledger {
    var closes: seq<nat>

    constructor ()
      ensures closes == []
    {
      closes := [];
    }

    /** The objects of `before` are as they were, the ones made later have been closed this often. */
    ghost predicate Since(before: seq<nat>, times: nat)
      reads this
    {
      before <= closes && forall id :: |before| <= id < |closes| ==> closes[id] == times
    }

    /** Makes the state objects of a modifier. If one of them is refused, those made so far are closed. */
    method Open(m: Modifier) returns (r: Result<State, string>)
      modifies this
      ensures r.Ok? ==> Since(old(closes), 0) && Ids(r.value) == Range(|old(closes)|, |closes|)
      ensures r.Err? ==> Since(old(closes), 1)
      decreases Size(m), 1
    {
      match m {
        case Single(_, _) =>
          var refused: bool := *;
          if refused {
            return Err("no state");
          }
          closes := closes + [0];
          assert Range(|old(closes)|, |closes|) == [|old(closes)|];
          return Ok(One(|closes| - 1));
        case Group(members) =>
          r := OpenAll(members);
      }
    }

    method OpenAll(members: seq<Modifier>) returns (r: Result<State, string>)
      modifies this
      ensures r.Ok? ==> Since(old(closes), 0) && Ids(r.value) == Range(|old(closes)|, |closes|)
      ensures r.Err? ==> Since(old(closes), 1)
      decreases Sizes(members)
    {
      var parts := [];
      var i := 0;
      while i < |members|
        invariant 0 <= i <= |members| && Since(old(closes), 0) && AllIds(parts) == Range(|old(closes)|, |closes|)
      {
        ghost var was := closes;
        MemberSmaller(members, i);
        var next := Open(members[i]);
        if next.Err? {
          assert AllIds(parts) == Range(|old(closes)|, |was|);
          var _ := CloseParts(parts);
          OnceEach(|old(closes)|, |was|);
          return Err(next.error);
        }
        RangesMeet(|old(closes)|, |was|, |closes|);
        assert Front(parts + [next.value]) == parts;
        parts := parts + [next.value];
        i := i + 1;
      }
      return Ok(Many(parts));
    }

    /** Closes every object below, even if closing one of them fails. */
    method Close(s: State) returns (failed: bool)
      requires forall id :: id in Ids(s) ==> id < |closes|
      modifies this
      ensures |closes| == |old(closes)| && forall id :: 0 <= id < |closes| ==> closes[id] == old(closes)[id] + multiset(Ids(s))[id]
      decreases s, 1
    {
      match s {
        case One(id) =>
          assert id in Ids(s);
          closes := closes[id := closes[id] + 1];
          failed := *;
        case Many(parts) =>
          assert Ids(s) == AllIds(parts);
          failed := CloseParts(parts);
      }
    }

    method CloseParts(parts: seq<State>) returns (failed: bool)
      requires forall id :: id in AllIds(parts) ==> id < |closes|
      modifies this
      ensures |closes| == |old(closes)| && forall id :: 0 <= id < |closes| ==> closes[id] == old(closes)[id] + multiset(AllIds(parts))[id]
      decreases parts
    {
      failed := false;
      var i := 0;
      while i < |parts|
        invariant 0 <= i <= |parts| && |closes| == |old(closes)|
        invariant forall id :: 0 <= id < |closes| ==> closes[id] == old(closes)[id] + multiset(AllIds(parts[..i]))[id]
      {
        assert Front(parts[..i + 1]) == parts[..i] && Last(parts[..i + 1]) == parts[i];
        PartIds(parts, i + 1);
        assert forall id :: id in Ids(parts[i]) ==> id in AllIds(parts[..i + 1]);
        var bad := Close(parts[i]);
        failed := failed || bad;
        i := i + 1;
      }
      assert parts[..i] == parts;
    }
  }

  lemma {:induction false} PartIds(parts: seq<State>, i: nat)
    requires i <= |parts|
    ensures forall id :: id in AllIds(parts[..i]) ==> id in AllIds(parts)
    decreases |parts|
  {
    if i < |parts| {
      assert Front(parts)[..i] == parts[..i];
      PartIds(Front(parts), i);
    } else {
      assert parts[..i] == parts;
    }
  }

  lemma {:induction false} OnceEach(lo: nat, hi: nat)
    requires lo <= hi
    ensures forall id: nat :: multiset(Range(lo, hi))[id] == if lo <= id < hi then 1 else 0
    decreases hi - lo
  {
    if lo < hi {
      OnceEach(lo, hi - 1);
      assert Range(lo, hi) == Range(lo, hi - 1) + [hi - 1];
    } else {
      assert Range(lo, hi) == [];
    }
  }

  lemma {:induction false} RangesMeet(a: nat, b: nat, c: nat)
    requires a <= b <= c
    ensures Range(a, b) + Range(b, c) == Range(a, c)
  {
  }
}
