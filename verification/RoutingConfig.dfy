/** Reading the configuration of a pipeline: directives become rules, and what the rules amount to can be
    said of the directives themselves. */
module RoutingConfig {
  import opened Common
  import opened Checks
  import opened Parser
  import opened Routing
  import Address

  datatype ConfigError = BadChecks | BadModifiers | BadTable | NoRule | BadRule | DuplicateDefault | UnknownDirective
                       | EmptyBlock | HandlingWithRules | MissingDefault | RejectWithTarget | MissingArgument
                       | BadTarget | BadReject | BadArgument

  /** What the modules and libraries behind the directives answer. */
  datatype Modules = Modules(checks: Node -> Option<seq<Check>>, modifiers: Node -> Option<seq<nat>>,
                             table: seq<string> -> Option<Finder>, target: Node -> Option<nat>,
                             pipeline: seq<Node> -> Option<nat>, reject: Node -> Option<Reason>,
                             addressKey: string -> Option<string>, domainKey: string -> Option<string>,
                             toASCII: string -> Option<string>)

  function Children(node: Node): seq<Node> {
    if node.block.NoBlock? then [] else node.block.nodes
  }

  // ---------------------------------------------------------------- recipient blocks

  function RcptStep(m: Modules, b: RcptBlock, node: Node): Result<RcptBlock, ConfigError> {
    if node.name == "check" then
      var checks := m.checks(node);
      if checks.None? then Err(BadChecks) else Ok(b.(checks := b.checks + checks.value))
    else if node.name == "modify" then
      var modifiers := m.modifiers(node);
      if modifiers.None? then Err(BadModifiers) else Ok(b.(modifiers := b.modifiers + modifiers.value))
    else if node.name == "deliver_to" then
      if b.reject.Some? then Err(RejectWithTarget)
      else if node.args == [] then Err(MissingArgument)
      else
        var target := m.target(node);
        if target.None? then Err(BadTarget) else Ok(b.(targets := b.targets + [target.value]))
    else if node.name == "reroute" then
      if Children(node) == [] then Err(EmptyBlock)
      else
        var target := m.pipeline(Children(node));
        if target.None? then Err(BadTarget) else Ok(b.(targets := b.targets + [target.value]))
    else if node.name == "reject" then
      if b.targets != [] then Err(RejectWithTarget)
      else
        var reason := m.reject(node);
        if reason.None? then Err(BadReject) else Ok(b.(reject := reason))
    else Err(UnknownDirective)
  }

  function RcptFrom(m: Modules, b: RcptBlock, nodes: seq<Node>): Result<RcptBlock, ConfigError>
    decreases |nodes|
  {
    if nodes == [] then Ok(b)
    else
      var next := RcptStep(m, b, nodes[0]);
      if next.Err? then next else RcptFrom(m, next.value, nodes[1..])
  }

  function ReadRcpt(m: Modules, id: nat, nodes: seq<Node>): Result<RcptBlock, ConfigError> {
    RcptFrom(m, RcptBlock(id, [], [], None, []), nodes)
  }

  function ChecksOf(m: Modules, nodes: seq<Node>): seq<Check> {
    if nodes == [] then []
    else (if nodes[0].name == "check" && m.checks(nodes[0]).Some? then m.checks(nodes[0]).value else []) + ChecksOf(m, nodes[1..])
  }

  function ModifiersOf(m: Modules, nodes: seq<Node>): seq<nat> {
    if nodes == [] then []
    else (if nodes[0].name == "modify" && m.modifiers(nodes[0]).Some? then m.modifiers(nodes[0]).value else []) + ModifiersOf(m, nodes[1..])
  }

  function TargetOf(m: Modules, node: Node): Option<nat> {
    if node.name == "deliver_to" then m.target(node) else if node.name == "reroute" then m.pipeline(Children(node)) else None
  }

  function TargetsOf(m: Modules, nodes: seq<Node>): seq<nat> {
    if nodes == [] then []
    else (if TargetOf(m, nodes[0]).Some? then [TargetOf(m, nodes[0]).value] else []) + TargetsOf(m, nodes[1..])
  }

  /** The reason of the last reject directive. */
  function RejectOf(m: Modules, nodes: seq<Node>): Option<Reason> {
    if nodes == [] then None
    else if Last(nodes).name == "reject" then m.reject(Last(nodes))
    else RejectOf(m, Front(nodes))
  }

  /** The directive is one of a recipient block, and can be read by itself. */
  predicate Understood(m: Modules, node: Node) {
    match node.name
    case "check" => m.checks(node).Some?
    case "modify" => m.modifiers(node).Some?
    case "deliver_to" => node.args != [] && m.target(node).Some?
    case "reroute" => Children(node) != [] && m.pipeline(Children(node)).Some?
    case "reject" => m.reject(node).Some?
    case _ => false
  }

  ghost predicate Has(nodes: seq<Node>, name: string) {
    exists i :: 0 <= i < |nodes| && nodes[i].name == name
  }

  ghost predicate HasAfter(nodes: seq<Node>, first: string, later: string) {
    exists i, j :: 0 <= i < j < |nodes| && nodes[i].name == first && nodes[j].name == later
  }

  /** A recipient block that can be read: every directive can, none delivers after a rejection, and none
      rejects after a delivery of either kind. */
  ghost predicate Readable(m: Modules, nodes: seq<Node>) {
    && (forall i :: 0 <= i < |nodes| ==> Understood(m, nodes[i]))
    && !HasAfter(nodes, "reject", "deliver_to") && !HasAfter(nodes, "deliver_to", "reject") && !HasAfter(nodes, "reroute", "reject")
  }

  lemma {:induction false} HasFirst(nodes: seq<Node>, name: string)
    requires nodes != []
    ensures Has(nodes, name) <==> nodes[0].name == name || Has(nodes[1..], name)
  {
    if Has(nodes[1..], name) {
      var i :| 0 <= i < |nodes[1..]| && nodes[1..][i].name == name;
      assert nodes[i + 1].name == name;
    }
    if Has(nodes, name) && nodes[0].name != name {
      var i :| 0 <= i < |nodes| && nodes[i].name == name;
      assert nodes[1..][i - 1].name == name;
    }
  }

  lemma {:induction false} HasAfterFirst(nodes: seq<Node>, first: string, later: string)
    requires nodes != []
    ensures HasAfter(nodes, first, later) <==> (nodes[0].name == first && Has(nodes[1..], later)) || HasAfter(nodes[1..], first, later)
  {
    var rest := nodes[1..];
    assert forall i :: 0 <= i < |rest| ==> rest[i] == nodes[i + 1];
    if HasAfter(nodes, first, later) {
      var i, j :| 0 <= i < j < |nodes| && nodes[i].name == first && nodes[j].name == later;
      assert rest[j - 1].name == later;
      if i > 0 {
        assert rest[i - 1].name == first;
      }
    }
    if HasAfter(rest, first, later) {
      var i, j :| 0 <= i < j < |rest| && rest[i].name == first && rest[j].name == later;
      assert nodes[i + 1].name == first && nodes[j + 1].name == later;
    }
  }

  lemma {:induction false} ReadableFirst(m: Modules, nodes: seq<Node>)
    requires nodes != []
    ensures Readable(m, nodes) <==>
              && Understood(m, nodes[0]) && Readable(m, nodes[1..])
              && (nodes[0].name == "reject" ==> !Has(nodes[1..], "deliver_to"))
              && (nodes[0].name == "deliver_to" || nodes[0].name == "reroute" ==> !Has(nodes[1..], "reject"))
  {
    HasAfterFirst(nodes, "reject", "deliver_to");
    HasAfterFirst(nodes, "deliver_to", "reject");
    HasAfterFirst(nodes, "reroute", "reject");
    var rest := nodes[1..];
    if forall i :: 0 <= i < |nodes| ==> Understood(m, nodes[i]) {
      forall i | 0 <= i < |rest| ensures Understood(m, rest[i]) {
        assert rest[i] == nodes[i + 1];
      }
    }
    if Understood(m, nodes[0]) && forall i :: 0 <= i < |rest| ==> Understood(m, rest[i]) {
      forall i | 0 <= i < |nodes| ensures Understood(m, nodes[i]) {
        assert i > 0 ==> nodes[i] == rest[i - 1];
      }
    }
  }

  lemma {:induction false} RejectFirst(m: Modules, nodes: seq<Node>)
    requires nodes != []
    ensures RejectOf(m, nodes) == if Has(nodes[1..], "reject") || nodes[0].name != "reject" then RejectOf(m, nodes[1..]) else m.reject(nodes[0])
    decreases |nodes|
  {
    if |nodes| > 1 {
      var rest := nodes[1..];
      assert Last(rest) == Last(nodes) && Front(nodes)[1..] == Front(rest) && Front(nodes)[0] == nodes[0];
      if Last(nodes).name == "reject" {
        assert rest[|rest| - 1].name == "reject";
      } else {
        RejectFirst(m, Front(nodes));
        assert Has(rest, "reject") <==> Has(Front(rest), "reject") by {
          if Has(rest, "reject") {
            var i :| 0 <= i < |rest| && rest[i].name == "reject";
            assert Front(rest)[i].name == "reject";
          }
          if Has(Front(rest), "reject") {
            var i :| 0 <= i < |Front(rest)| && Front(rest)[i].name == "reject";
            assert rest[i].name == "reject";
          }
        }
      }
    }
  }

  /** The block, as the directives left to read continue it. */
  ghost predicate Continues(m: Modules, b: RcptBlock, nodes: seq<Node>, r: RcptBlock) {
    && r.id == b.id && r.checks == b.checks + ChecksOf(m, nodes) && r.modifiers == b.modifiers + ModifiersOf(m, nodes)
    && r.targets == b.targets + TargetsOf(m, nodes)
    && r.reject == if Has(nodes, "reject") then RejectOf(m, nodes) else b.reject
  }

  ghost predicate ReadableAfter(m: Modules, b: RcptBlock, nodes: seq<Node>) {
    && Readable(m, nodes)
    && (b.reject.Some? ==> !Has(nodes, "deliver_to")) && (b.targets != [] ==> !Has(nodes, "reject"))
  }

  lemma {:induction false} StepReadable(m: Modules, b: RcptBlock, nodes: seq<Node>)
    requires nodes != []
    ensures ReadableAfter(m, b, nodes) <==>
              RcptStep(m, b, nodes[0]).Ok? && ReadableAfter(m, RcptStep(m, b, nodes[0]).value, nodes[1..])
  {
    ReadableFirst(m, nodes);
    HasFirst(nodes, "deliver_to");
    HasFirst(nodes, "reject");
  }

  lemma {:induction false} StepContinues(m: Modules, b: RcptBlock, nodes: seq<Node>, r: RcptBlock)
    requires nodes != [] && RcptStep(m, b, nodes[0]).Ok? && Continues(m, RcptStep(m, b, nodes[0]).value, nodes[1..], r)
    ensures Continues(m, b, nodes, r)
  {
    HasFirst(nodes, "reject");
    RejectFirst(m, nodes);
    var node, rest := nodes[0], nodes[1..];
    ConcatAssoc(b.checks, if node.name == "check" && m.checks(node).Some? then m.checks(node).value else [], ChecksOf(m, rest));
    ConcatAssoc(b.modifiers, if node.name == "modify" && m.modifiers(node).Some? then m.modifiers(node).value else [], ModifiersOf(m, rest));
    ConcatAssoc(b.targets, if TargetOf(m, node).Some? then [TargetOf(m, node).value] else [], TargetsOf(m, rest));
  }

  lemma {:induction false} RcptFromExactly(m: Modules, b: RcptBlock, nodes: seq<Node>)
    ensures RcptFrom(m, b, nodes).Ok? <==> ReadableAfter(m, b, nodes)
    ensures RcptFrom(m, b, nodes).Ok? ==> Continues(m, b, nodes, RcptFrom(m, b, nodes).value)
    decreases |nodes|
  {
    if nodes != [] {
      StepReadable(m, b, nodes);
      var next := RcptStep(m, b, nodes[0]);
      if next.Ok? {
        RcptFromExactly(m, next.value, nodes[1..]);
        if RcptFrom(m, b, nodes).Ok? {
          StepContinues(m, b, nodes, RcptFrom(m, b, nodes).value);
        }
      }
    }
  }

  /** A block both rejects and delivers exactly when a reroute directive follows a reject directive: that one
      combination is not refused. */
  lemma {:induction false} RejectsAndDelivers(m: Modules, id: nat, nodes: seq<Node>)
    requires ReadRcpt(m, id, nodes).Ok?
    ensures var b := ReadRcpt(m, id, nodes).value;
            b.reject.Some? && b.targets != [] <==> HasAfter(nodes, "reject", "reroute")
  {
    RcptFromExactly(m, RcptBlock(id, [], [], None, []), nodes);
    TargetsNamed(m, nodes);
    RejectNamed(m, nodes);
    if Has(nodes, "reject") && (Has(nodes, "deliver_to") || Has(nodes, "reroute")) {
      var i :| 0 <= i < |nodes| && nodes[i].name == "reject";
      var j :| 0 <= j < |nodes| && (nodes[j].name == "deliver_to" || nodes[j].name == "reroute");
      assert i < j;
    }
  }

  lemma {:induction false} TargetsNamed(m: Modules, nodes: seq<Node>)
    requires forall i :: 0 <= i < |nodes| ==> Understood(m, nodes[i])
    ensures TargetsOf(m, nodes) != [] <==> Has(nodes, "deliver_to") || Has(nodes, "reroute")
    decreases |nodes|
  {
    if nodes != [] {
      HasFirst(nodes, "deliver_to");
      HasFirst(nodes, "reroute");
      assert Understood(m, nodes[0]);
      TargetsNamed(m, nodes[1..]);
    }
  }

  lemma {:induction false} RejectNamed(m: Modules, nodes: seq<Node>)
    ensures RejectOf(m, nodes).Some? ==> Has(nodes, "reject")
    ensures (forall i :: 0 <= i < |nodes| ==> Understood(m, nodes[i])) && Has(nodes, "reject") ==> RejectOf(m, nodes).Some?
    decreases |nodes|
  {
    if nodes != [] {
      RejectNamed(m, nodes[1..]);
      RejectFirst(m, nodes);
      HasFirst(nodes, "reject");
    }
  }

  lemma {:induction false} ReadExactly(m: Modules, id: nat, nodes: seq<Node>)
    ensures ReadRcpt(m, id, nodes).Ok? <==> Readable(m, nodes)
    ensures ReadRcpt(m, id, nodes).Ok? ==>
              ReadRcpt(m, id, nodes).value == RcptBlock(id, ChecksOf(m, nodes), ModifiersOf(m, nodes), RejectOf(m, nodes), TargetsOf(m, nodes))
  {
    RcptFromExactly(m, RcptBlock(id, [], [], None, []), nodes);
    RejectNamed(m, nodes);
  }

  lemma {:induction false} RcptNext(m: Modules, b: RcptBlock, nodes: seq<Node>, i: nat)
    requires i < |nodes|
    ensures var next := RcptStep(m, b, nodes[i]);
            RcptFrom(m, b, nodes[i..]) == if next.Err? then next else RcptFrom(m, next.value, nodes[i + 1..])
  {
    assert nodes[i..][0] == nodes[i] && nodes[i..][1..] == nodes[i + 1..];
  }

  /** Reads a recipient block. It succeeds exactly when the block is readable, and the block then holds what its
      directives name, in their order. */
  method ParseRcpt(m: Modules, id: nat, nodes: seq<Node>) returns (r: Result<RcptBlock, ConfigError>)
    ensures r == ReadRcpt(m, id, nodes)
    ensures r.Ok? <==> Readable(m, nodes)
    ensures r.Ok? ==> r.value == RcptBlock(id, ChecksOf(m, nodes), ModifiersOf(m, nodes), RejectOf(m, nodes), TargetsOf(m, nodes))
  {
    r := ParseDirectives(m, id, nodes);
    ReadExactly(m, id, nodes);
  }

  /** The loop over the directives. */
  method ParseDirectives(m: Modules, id: nat, nodes: seq<Node>) returns (r: Result<RcptBlock, ConfigError>)
    ensures r == ReadRcpt(m, id, nodes)
  {
    var b := RcptBlock(id, [], [], None, []);
    var i := 0;
    assert nodes[0..] == nodes;
    while i < |nodes|
      invariant 0 <= i <= |nodes| && RcptFrom(m, b, nodes[i..]) == ReadRcpt(m, id, nodes)
    {
      RcptNext(m, b, nodes, i);
      var next := RcptStep(m, b, nodes[i]);
      if next.Err? {
        return next;
      }
      b := next.value;
      i := i + 1;
    }
    return Ok(b);
  }

  // ---------------------------------------------------------------- rules

  predicate ValidMatchRule(m: Modules, rule: string) {
    Address.ValidDomain(rule, m.toASCII) || Address.Valid(rule, m.toASCII)
  }

  /** The key a rule stands for, if it is a valid rule. */
  function RuleKey(m: Modules, rule: string): Option<string> {
    var key := if Contains(rule, "@") then m.addressKey(rule) else m.domainKey(rule);
    if key.Some? && ValidMatchRule(m, key.value) then key else None
  }

  /** Adds rules for a block; a key that has a rule keeps it. */
  function WithRules<B>(m: Modules, exact: map<string, B>, rules: seq<string>, block: B): Result<map<string, B>, ConfigError>
    decreases |rules|
  {
    if rules == [] then Ok(exact)
    else
      var key := RuleKey(m, rules[0]);
      if key.None? then Err(BadRule)
      else WithRules(m, if key.value in exact then exact else exact[key.value := block], rules[1..], block)
  }

  method AddRules<B>(m: Modules, exact: map<string, B>, rules: seq<string>, block: B) returns (r: Result<map<string, B>, ConfigError>)
    ensures r == WithRules(m, exact, rules, block)
  {
    var more := exact;
    var i := 0;
    assert rules[0..] == rules;
    while i < |rules|
      invariant 0 <= i <= |rules| && WithRules(m, more, rules[i..], block) == WithRules(m, exact, rules, block)
    {
      assert rules[i..][0] == rules[i] && rules[i..][1..] == rules[i + 1..];
      var key := if Contains(rules[i], "@") then m.addressKey(rules[i]) else m.domainKey(rules[i]);
      if key.None? || !ValidMatchRule(m, key.value) {
        return Err(BadRule);
      }
      if key.value !in more {
        more := more[key.value := block];
      }
      i := i + 1;
    }
    return Ok(more);
  }

  predicate Lists(m: Modules, rules: seq<string>, key: string) {
    exists i :: 0 <= i < |rules| && RuleKey(m, rules[i]) == Some(key)
  }

  /** The new keys are the ones listed, and they get the block unless they had one. */
  lemma {:induction false} WithRulesKeys<B>(m: Modules, exact: map<string, B>, rules: seq<string>, block: B, key: string)
    requires WithRules(m, exact, rules, block).Ok?
    ensures var more := WithRules(m, exact, rules, block).value;
            && (key in more <==> key in exact || Lists(m, rules, key))
            && (key in more ==> more[key] == if key in exact then exact[key] else block)
    decreases |rules|
  {
    if rules != [] {
      var first := RuleKey(m, rules[0]).value;
      var next := if first in exact then exact else exact[first := block];
      WithRulesKeys(m, next, rules[1..], block, key);
      assert Lists(m, rules, key) <==> first == key || Lists(m, rules[1..], key) by {
        if Lists(m, rules[1..], key) {
          var i :| 0 <= i < |rules[1..]| && RuleKey(m, rules[1..][i]) == Some(key);
          assert rules[i + 1] == rules[1..][i];
        }
        if Lists(m, rules, key) && first != key {
          var i :| 0 <= i < |rules| && RuleKey(m, rules[i]) == Some(key);
          assert rules[1..][i - 1] == rules[i];
        }
      }
    }
  }

  // ---------------------------------------------------------------- source blocks and the pipeline itself

  /** The words of one level of the configuration, and how the blocks below are read. The first argument
      tells the blocks apart. */
  datatype Level<!B> = Level(inWord: string, word: string, defaultWord: string, loose: set<string>, dmarc: bool,
                             read: (nat, seq<Node>) -> Result<B, ConfigError>)

  predicate Distinct<B>(level: Level<B>) {
    var words := [level.inWord, level.word, level.defaultWord, "check", "modify", "dmarc"];
    && (forall i, j :: 0 <= i < j < |words| ==> words[i] != words[j])
    && (forall i :: 0 <= i < |words| ==> words[i] !in level.loose)
  }

  datatype Reading<B> = Reading(checks: seq<Check>, modifiers: seq<nat>, tables: seq<TableRule<B>>, exact: map<string, B>,
                                fallback: Option<seq<Node>>, others: seq<Node>, dmarc: bool)

  function Nothing<B>(): Reading<B> {
    Reading([], [], [], map[], None, [], false)
  }

  /** One directive, the `i`th. */
  function ReadOne<B>(m: Modules, level: Level<B>, r: Reading<B>, i: nat, node: Node): Result<Reading<B>, ConfigError> {
    if node.name == "check" then
      var checks := m.checks(node);
      if checks.None? then Err(BadChecks) else Ok(r.(checks := r.checks + checks.value))
    else if node.name == "modify" then
      var modifiers := m.modifiers(node);
      if modifiers.None? then Err(BadModifiers) else Ok(r.(modifiers := r.modifiers + modifiers.value))
    else if node.name == level.inWord then
      var table := m.table(node.args);
      if table.None? then Err(BadTable)
      else
        var block := level.read(i + 1, Children(node));
        if block.Err? then Err(block.error) else Ok(r.(tables := r.tables + [TableRule(table.value, block.value)]))
    else if node.name == level.word then
      var block := level.read(i + 1, Children(node));
      if block.Err? then Err(block.error)
      else if node.args == [] then Err(NoRule)
      else
        var exact := WithRules(m, r.exact, node.args, block.value);
        if exact.Err? then Err(exact.error) else Ok(r.(exact := exact.value))
    else if node.name == level.defaultWord then
      if r.fallback.Some? then Err(DuplicateDefault)
      else Ok(r.(fallback := if node.block.NoBlock? then None else Some(node.block.nodes)))
    else if node.name == "dmarc" && level.dmarc then
      if node.args == [] || node.args == ["yes"] then Ok(r.(dmarc := true))
      else if |node.args| == 1 && node.args[0] != "no" then Err(BadArgument)
      else Ok(r)
    else if node.name in level.loose then Ok(r.(others := r.others + [node]))
    else Err(UnknownDirective)
  }

  function ReadFrom<B>(m: Modules, level: Level<B>, r: Reading<B>, nodes: seq<Node>, i: nat): Result<Reading<B>, ConfigError>
    requires i <= |nodes|
    decreases |nodes| - i
  {
    if i == |nodes| then Ok(r)
    else
      var next := ReadOne(m, level, r, i, nodes[i]);
      if next.Err? then next else ReadFrom(m, level, next.value, nodes, i + 1)
  }

  /** The block for what no rule matches: the directives outside all rules, or the default block. */
  function ReadDefault<B>(level: Level<B>, r: Reading<B>): Result<B, ConfigError> {
    var raw := if r.fallback.Some? then r.fallback.value else [];
    if r.exact == map[] && raw == [] then
      if r.others == [] then Err(EmptyBlock) else level.read(0, r.others)
    else if r.others != [] then Err(HandlingWithRules)
    else if raw == [] then Err(MissingDefault)
    else level.read(0, raw)
  }

  /** A level that has been read. */
  datatype Section<B> = Section(checks: seq<Check>, modifiers: seq<nat>, rules: Rules<B>, dmarc: bool)

  function Read<B>(m: Modules, level: Level<B>, nodes: seq<Node>): Result<Section<B>, ConfigError> {
    var r := ReadFrom(m, level, Nothing(), nodes, 0);
    if r.Err? then Err(r.error)
    else
      var fallback := ReadDefault(level, r.value);
      if fallback.Err? then Err(fallback.error)
      else Ok(Section(r.value.checks, r.value.modifiers, Rules(r.value.tables, r.value.exact, Some(fallback.value)), r.value.dmarc))
  }

  function SourceLevel(m: Modules): Level<RcptBlock> {
    Level("destination_in", "destination", "default_destination", {"deliver_to", "reroute", "reject"}, false,
          (id, nodes) => ReadRcpt(m, id, nodes))
  }

  function ReadSource(m: Modules, nodes: seq<Node>): Result<SourceBlock, ConfigError> {
    var r := Read(m, SourceLevel(m), nodes);
    if r.Err? then Err(r.error) else Ok(SourceBlock(r.value.checks, r.value.modifiers, r.value.rules))
  }

  function RootLevel(m: Modules): Level<SourceBlock> {
    Level("source_in", "source", "default_source",
          {"deliver_to", "reroute", "destination_in", "destination", "default_destination", "reject"}, true,
          (id, nodes) => ReadSource(m, nodes))
  }

  function ReadConfig(m: Modules, nodes: seq<Node>): Result<Config, ConfigError> {
    var r := Read(m, RootLevel(m), nodes);
    if r.Err? then Err(r.error) else Ok(Config(r.value.checks, r.value.modifiers, r.value.rules, r.value.dmarc))
  }

  /** The loop over the directives of a level. */
  method ParseLevel<B>(m: Modules, level: Level<B>, nodes: seq<Node>) returns (r: Result<Section<B>, ConfigError>)
    ensures r == Read(m, level, nodes)
  {
    var reading := Nothing();
    var i := 0;
    while i < |nodes|
      invariant 0 <= i <= |nodes| && ReadFrom(m, level, reading, nodes, i) == ReadFrom(m, level, Nothing(), nodes, 0)
    {
      var node := nodes[i];
      if node.name != "check" && node.name != "modify" && node.name != level.inWord && node.name == level.word {
        var block := level.read(i + 1, Children(node));
        if block.Err? {
          return Err(block.error);
        }
        if node.args == [] {
          return Err(NoRule);
        }
        var exact := AddRules(m, reading.exact, node.args, block.value);
        if exact.Err? {
          return Err(exact.error);
        }
        reading := reading.(exact := exact.value);
      } else {
        var next := ReadOne(m, level, reading, i, node);
        if next.Err? {
          return Err(next.error);
        }
        reading := next.value;
      }
      i := i + 1;
    }
    var fallback := ReadDefault(level, reading);
    if fallback.Err? {
      return Err(fallback.error);
    }
    return Ok(Section(reading.checks, reading.modifiers, Rules(reading.tables, reading.exact, Some(fallback.value)), reading.dmarc));
  }

  // ---------------------------------------------------------------- what the directives say

  predicate HasTable<B>(m: Modules, level: Level<B>, node: Node, key: string) {
    node.name == level.inWord && m.table(node.args).Some? && Finds(m.table(node.args).value, key)
  }

  predicate HasRule<B>(m: Modules, level: Level<B>, node: Node, key: string) {
    node.name == level.word && Lists(m, node.args, key)
  }

  /** The first of the first `n` nodes that has the property. */
  function FirstNode(nodes: seq<Node>, n: nat, p: Node -> bool): (first: Option<nat>)
    requires n <= |nodes|
    ensures first.Some? ==> first.value < n && p(nodes[first.value]) && forall j :: 0 <= j < first.value ==> !p(nodes[j])
    ensures first.None? ==> forall j :: 0 <= j < n ==> !p(nodes[j])
  {
    if n == 0 then None
    else
      var before := FirstNode(nodes, n - 1, p);
      if before.Some? then before else if p(nodes[n - 1]) then Some(n - 1) else None
  }

  function FirstTable<B>(m: Modules, level: Level<B>, nodes: seq<Node>, n: nat, key: string): Option<nat>
    requires n <= |nodes|
  {
    FirstNode(nodes, n, node => HasTable(m, level, node, key))
  }

  function FirstRule<B>(m: Modules, level: Level<B>, nodes: seq<Node>, n: nat, key: string): Option<nat>
    requires n <= |nodes|
  {
    FirstNode(nodes, n, node => HasRule(m, level, node, key))
  }

  /** This is the block of the `i`th directive. */
  ghost predicate IsBlock<B>(level: Level<B>, nodes: seq<Node>, i: nat, block: B)
    requires i < |nodes|
  {
    level.read(i + 1, Children(nodes[i])) == Ok(block)
  }

  ghost predicate TablesRight<B>(m: Modules, level: Level<B>, nodes: seq<Node>, n: nat, tables: seq<TableRule<B>>, key: string)
    requires n <= |nodes|
  {
    var first, found := FirstTable(m, level, nodes, n, key), FirstFinding(tables, key);
    if first.None? then found.None? else found.Some? && IsBlock(level, nodes, first.value, tables[found.value].block)
  }

  ghost predicate ExactRight<B>(m: Modules, level: Level<B>, nodes: seq<Node>, n: nat, exact: map<string, B>, key: string)
    requires n <= |nodes|
  {
    var first := FirstRule(m, level, nodes, n, key);
    if first.None? then key !in exact else key in exact && IsBlock(level, nodes, first.value, exact[key])
  }

  /** The directives outside all rules, of the first `n`. */
  function LooseNodes<B>(level: Level<B>, nodes: seq<Node>, n: nat): seq<Node>
    requires n <= |nodes|
  {
    if n == 0 then []
    else LooseNodes(level, nodes, n - 1) + if nodes[n - 1].name in level.loose then [nodes[n - 1]] else []
  }

  /** The contents of the first default directive that has a block. */
  function DefaultNodes<B>(level: Level<B>, nodes: seq<Node>, n: nat): Option<seq<Node>>
    requires n <= |nodes|
  {
    var first := FirstNode(nodes, n, (node: Node) => node.name == level.defaultWord && node.block.Block?);
    if first.None? then None else Some(nodes[first.value].block.nodes)
  }

  /** The block is what the default directive holds or, when there is no such directive and no rule, what
      the directives outside all rules say. */
  ghost predicate IsDefault<B>(level: Level<B>, nodes: seq<Node>, block: B) {
    var named, loose := DefaultNodes(level, nodes, |nodes|), LooseNodes(level, nodes, |nodes|);
    if named.None? || named.value == [] then !Has(nodes, level.word) && loose != [] && level.read(0, loose) == Ok(block)
    else loose == [] && level.read(0, named.value) == Ok(block)
  }

  ghost predicate RestRight<B>(level: Level<B>, nodes: seq<Node>, n: nat, r: Reading<B>)
    requires n <= |nodes|
  {
    && r.others == LooseNodes(level, nodes, n) && r.fallback == DefaultNodes(level, nodes, n)
    && (r.exact == map[] <==> forall j :: 0 <= j < n ==> nodes[j].name != level.word)
  }

  /** What a directive adds to the rest. */
  lemma {:induction false} AddsRest<B>(m: Modules, level: Level<B>, r: Reading<B>, i: nat, node: Node)
    requires Distinct(level) && ReadOne(m, level, r, i, node).Ok?
    ensures var next := ReadOne(m, level, r, i, node).value;
            && next.others == r.others + (if node.name in level.loose then [node] else [])
            && (node.name == level.defaultWord ==> r.fallback.None?)
            && next.fallback == (if node.name == level.defaultWord && node.block.Block? then Some(node.block.nodes) else r.fallback)
            && (node.name == level.word ==> node.args != [])
  {
    var words := [level.inWord, level.word, level.defaultWord, "check", "modify", "dmarc"];
    assert words[0] != words[2] && words[1] != words[2] && words[2] != words[3] && words[2] != words[4];
    assert words[0] != words[1] && words[1] != words[3] && words[1] != words[4];
    assert forall k :: 0 <= k < 6 ==> words[k] !in level.loose;
    assert words[0] !in level.loose && words[1] !in level.loose && words[2] !in level.loose && words[3] !in level.loose;
    assert words[4] !in level.loose && words[5] !in level.loose;
  }

  lemma {:induction false} SomeRule<B>(m: Modules, exact: map<string, B>, rules: seq<string>, block: B)
    requires rules != [] && WithRules(m, exact, rules, block).Ok?
    ensures WithRules(m, exact, rules, block).value != map[]
  {
    var key := RuleKey(m, rules[0]).value;
    WithRulesKeys(m, exact, rules, block, key);
    assert RuleKey(m, rules[0]) == Some(key);
    assert key in WithRules(m, exact, rules, block).value;
  }

  lemma {:induction false} RestAdded<B>(m: Modules, level: Level<B>, r: Reading<B>, nodes: seq<Node>, i: nat)
    requires Distinct(level) && i < |nodes| && RestRight(level, nodes, i, r) && ReadOne(m, level, r, i, nodes[i]).Ok?
    ensures RestRight(level, nodes, i + 1, ReadOne(m, level, r, i, nodes[i]).value)
  {
    Adds(m, level, r, i, nodes[i]);
    AddsRest(m, level, r, i, nodes[i]);
    if nodes[i].name == level.word {
      SomeRule(m, r.exact, nodes[i].args, level.read(i + 1, Children(nodes[i])).value);
    }
  }

  lemma {:induction false} AllRestRight<B>(m: Modules, level: Level<B>, r: Reading<B>, nodes: seq<Node>, i: nat)
    requires Distinct(level) && i <= |nodes| && ReadFrom(m, level, r, nodes, i).Ok? && RestRight(level, nodes, i, r)
    ensures RestRight(level, nodes, |nodes|, ReadFrom(m, level, r, nodes, i).value)
    decreases |nodes| - i
  {
    if i < |nodes| {
      RestAdded(m, level, r, nodes, i);
      AllRestRight(m, level, ReadOne(m, level, r, i, nodes[i]).value, nodes, i + 1);
    }
  }

  lemma {:induction false} FindingAppend<B>(tables: seq<TableRule<B>>, rule: TableRule<B>, key: string)
    ensures FirstFinding(tables + [rule], key)
         == if FirstFinding(tables, key).Some? then FirstFinding(tables, key)
            else if Finds(rule.find, key) then Some(|tables|) else None
  {
    var longer := tables + [rule];
    assert forall j :: 0 <= j < |tables| ==> longer[j] == tables[j];
    assert longer[|tables|] == rule;
  }

  /** What a directive adds to the rules. */
  lemma {:induction false} Adds<B>(m: Modules, level: Level<B>, r: Reading<B>, i: nat, node: Node)
    requires Distinct(level) && ReadOne(m, level, r, i, node).Ok?
    ensures var next := ReadOne(m, level, r, i, node).value;
            var block := level.read(i + 1, Children(node));
            && (node.name == level.inWord ==>
                  m.table(node.args).Some? && block.Ok? && next.exact == r.exact
                  && next.tables == r.tables + [TableRule(m.table(node.args).value, block.value)])
            && (node.name == level.word ==>
                  block.Ok? && next.tables == r.tables && WithRules(m, r.exact, node.args, block.value) == Ok(next.exact))
            && (node.name != level.inWord && node.name != level.word ==> next.tables == r.tables && next.exact == r.exact)
            && level.inWord != level.word
  {
    var words := [level.inWord, level.word, level.defaultWord, "check", "modify", "dmarc"];
    assert words[0] != words[1] && words[0] != words[3] && words[0] != words[4] && words[1] != words[3] && words[1] != words[4];
  }

  lemma {:induction false} TableAdded<B>(m: Modules, level: Level<B>, nodes: seq<Node>, i: nat, tables: seq<TableRule<B>>, rule: TableRule<B>, key: string)
    requires i < |nodes| && TablesRight(m, level, nodes, i, tables, key)
    requires nodes[i].name == level.inWord && m.table(nodes[i].args) == Some(rule.find) && IsBlock(level, nodes, i, rule.block)
    ensures TablesRight(m, level, nodes, i + 1, tables + [rule], key)
  {
    FindingAppend(tables, rule, key);
  }

  lemma {:induction false} RulesAdded<B>(m: Modules, level: Level<B>, nodes: seq<Node>, i: nat, exact: map<string, B>, more: map<string, B>, block: B, key: string)
    requires i < |nodes| && ExactRight(m, level, nodes, i, exact, key)
    requires nodes[i].name == level.word && IsBlock(level, nodes, i, block) && WithRules(m, exact, nodes[i].args, block) == Ok(more)
    ensures ExactRight(m, level, nodes, i + 1, more, key)
  {
    WithRulesKeys(m, exact, nodes[i].args, block, key);
  }

  lemma {:induction false} AllRight<B>(m: Modules, level: Level<B>, r: Reading<B>, nodes: seq<Node>, i: nat, key: string)
    requires Distinct(level) && i <= |nodes| && ReadFrom(m, level, r, nodes, i).Ok?
    requires TablesRight(m, level, nodes, i, r.tables, key) && ExactRight(m, level, nodes, i, r.exact, key)
    ensures var all := ReadFrom(m, level, r, nodes, i).value;
            TablesRight(m, level, nodes, |nodes|, all.tables, key) && ExactRight(m, level, nodes, |nodes|, all.exact, key)
    decreases |nodes| - i
  {
    if i < |nodes| {
      var node, next := nodes[i], ReadOne(m, level, r, i, nodes[i]).value;
      Adds(m, level, r, i, node);
      if node.name == level.inWord {
        TableAdded(m, level, nodes, i, r.tables, Last(next.tables), key);
      } else if node.name == level.word {
        RulesAdded(m, level, nodes, i, r.exact, next.exact, level.read(i + 1, Children(node)).value, key);
      }
      AllRight(m, level, next, nodes, i + 1, key);
    }
  }

  /** Where a normalized address goes, by the directives: to the first table directive that finds it, else
      to the first rule directive that lists it, else to the first that lists its domain, else to the
      default block, or to what the directives outside all rules say where there are no rules. */
  ghost predicate GoesTo<B>(m: Modules, level: Level<B>, nodes: seq<Node>, clean: string, nullAllowed: bool,
                            r: Result<Option<B>, RouteError>) {
    var table, rule := FirstTable(m, level, nodes, |nodes|, clean), FirstRule(m, level, nodes, |nodes|, clean);
    if table.Some? then r.Ok? && r.value.Some? && IsBlock(level, nodes, table.value, r.value.value)
    else if rule.Some? then r.Ok? && r.value.Some? && IsBlock(level, nodes, rule.value, r.value.value)
    else
      var domain := DomainOf(clean, nullAllowed);
      if domain.None? then r == Err(CannotSplit)
      else
        var domainRule := FirstRule(m, level, nodes, |nodes|, domain.value);
        if domainRule.Some? then r.Ok? && r.value.Some? && IsBlock(level, nodes, domainRule.value, r.value.value)
        else r.Ok? && r.value.Some? && IsDefault(level, nodes, r.value.value)
  }

  /** Any configuration that can be read routes every address that can be split, and routes it by the
      order and the kind of its directives. */
  lemma {:induction false} RoutesByDeclaration<B>(m: Modules, level: Level<B>, nodes: seq<Node>, clean: string, nullAllowed: bool)
    requires Distinct(level) && Read(m, level, nodes).Ok?
    ensures var rules := Read(m, level, nodes).value.rules;
            && rules.fallback.Some? && IsDefault(level, nodes, rules.fallback.value)
            && GoesTo(m, level, nodes, clean, nullAllowed, Chosen(rules, clean, nullAllowed))
  {
    AllRestRight(m, level, Nothing(), nodes, 0);
    AllRight(m, level, Nothing(), nodes, 0, clean);
    var domain := DomainOf(clean, nullAllowed);
    if domain.Some? {
      AllRight(m, level, Nothing(), nodes, 0, domain.value);
    }
  }

  /** Both levels of a pipeline are such configurations. */
  lemma {:induction false} LevelsDistinct(m: Modules)
    ensures Distinct(SourceLevel(m)) && Distinct(RootLevel(m))
  {
  }

  /** The recipient of a readable configuration always has a block, unless its address is malformed, and it is the
      one that the directives say for the normalized address. */
  lemma {:induction false} RcptAlwaysRouted(m: Modules, nodes: seq<Node>, normalize: string -> Option<string>, to: string)
    requires ReadSource(m, nodes).Ok?
    ensures var r := RcptRoute(ReadSource(m, nodes).value, normalize, to);
            && (r.Ok? ==> r.value.Some?)
            && (normalize(to).Some? && Address.Split(normalize(to).value).Ok? ==> r.Ok?)
            && (normalize(to).None? ==> r == Err(CannotNormalize))
            && (normalize(to).Some? ==> GoesTo(m, SourceLevel(m), nodes, normalize(to).value, false, r))
  {
    LevelsDistinct(m);
    if normalize(to).Some? {
      RoutesByDeclaration(m, SourceLevel(m), nodes, normalize(to).value, false);
    }
  }

  /** A sender goes where the directives say for the normalized address. */
  lemma {:induction false} SenderRouted(m: Modules, nodes: seq<Node>, normalize: string -> Option<string>, from: string)
    requires ReadConfig(m, nodes).Ok? && from != ""
    ensures var r := SourceRoute(ReadConfig(m, nodes).value, normalize, from);
            && (normalize(from).None? ==> r == Err(CannotNormalize))
            && (normalize(from).Some? ==> GoesTo(m, RootLevel(m), nodes, normalize(from).value, true, r))
  {
    LevelsDistinct(m);
    if normalize(from).Some? {
      RoutesByDeclaration(m, RootLevel(m), nodes, normalize(from).value, true);
    }
  }

  lemma {:induction false} NoEmptyRule(m: Modules, rule: string)
    ensures RuleKey(m, rule) != Some("")
  {
    assert !ValidMatchRule(m, "");
  }

  /** The null sender matches no source rule: it goes to the first table that has it, or to the default. */
  lemma {:induction false} NullSenderRoute(m: Modules, nodes: seq<Node>, normalize: string -> Option<string>)
    requires ReadConfig(m, nodes).Ok?
    ensures var config := ReadConfig(m, nodes).value;
            var r := SourceRoute(config, normalize, "");
            && r.Ok? && r.value.Some?
            && var table := FirstTable(m, RootLevel(m), nodes, |nodes|, "");
               if table.Some? then IsBlock(RootLevel(m), nodes, table.value, r.value.value) else r.value == config.sources.fallback
  {
    LevelsDistinct(m);
    RoutesByDeclaration(m, RootLevel(m), nodes, "", true);
    forall node ensures !HasRule(m, RootLevel(m), node, "") {
      forall i | 0 <= i < |node.args| ensures RuleKey(m, node.args[i]) != Some("") {
        NoEmptyRule(m, node.args[i]);
      }
    }
    assert FirstRule(m, RootLevel(m), nodes, |nodes|, "").None?;
  }
}
