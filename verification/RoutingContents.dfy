/** What a source block, or a pipeline, is made of once it has been read, and when it can be. */
module RoutingContents {
  import opened Common
  import opened Checks
  import opened Parser
  import opened Routing
  import opened RoutingConfig

  // ---------------------------------------------------------------- checks, modifiers and DMARC

  /** Turns DMARC on, where there is such a directive. */
  predicate SaysDmarc<B>(level: Level<B>, node: Node) {
    level.dmarc && node.name == "dmarc" && (node.args == [] || node.args == ["yes"])
  }

  ghost predicate AnyDmarc<B>(level: Level<B>, nodes: seq<Node>) {
    exists i :: 0 <= i < |nodes| && SaysDmarc(level, nodes[i])
  }

  /** `after` has what `before` has and what these directives name, in their order. */
  ghost predicate Gained<B>(m: Modules, level: Level<B>, before: Reading<B>, nodes: seq<Node>, after: Reading<B>) {
    && after.checks == before.checks + ChecksOf(m, nodes)
    && after.modifiers == before.modifiers + ModifiersOf(m, nodes)
    && (after.dmarc <==> before.dmarc || AnyDmarc(level, nodes))
  }

  lemma {:induction false} WordsApart<B>(level: Level<B>)
    requires Distinct(level)
    ensures level.inWord != level.word && level.inWord != level.defaultWord && level.word != level.defaultWord
    ensures level.inWord != "check" && level.word != "check" && level.defaultWord != "check"
    ensures level.inWord != "modify" && level.word != "modify" && level.defaultWord != "modify"
    ensures level.inWord != "dmarc" && level.word != "dmarc" && level.defaultWord != "dmarc"
    ensures "check" !in level.loose && "modify" !in level.loose && "dmarc" !in level.loose
    ensures level.inWord !in level.loose && level.word !in level.loose && level.defaultWord !in level.loose
  {
    var words := [level.inWord, level.word, level.defaultWord, "check", "modify", "dmarc"];
    assert words[0] != words[1] && words[0] != words[2] && words[1] != words[2];
    assert words[0] != words[3] && words[1] != words[3] && words[2] != words[3];
    assert words[0] != words[4] && words[1] != words[4] && words[2] != words[4];
    assert words[0] != words[5] && words[1] != words[5] && words[2] != words[5];
    assert words[0] !in level.loose && words[1] !in level.loose && words[2] !in level.loose;
    assert words[3] !in level.loose && words[4] !in level.loose && words[5] !in level.loose;
  }

  lemma {:induction false} OneGains<B>(m: Modules, level: Level<B>, r: Reading<B>, i: nat, node: Node)
    requires Distinct(level) && ReadOne(m, level, r, i, node).Ok?
    ensures Gained(m, level, r, [node], ReadOne(m, level, r, i, node).value)
  {
    WordsApart(level);
    assert [node][1..] == [] && r.checks + [] == r.checks && r.modifiers + [] == r.modifiers;
    assert AnyDmarc(level, [node]) <==> SaysDmarc(level, [node][0]);
  }

  lemma {:induction false} DmarcFirst<B>(level: Level<B>, nodes: seq<Node>)
    requires nodes != []
    ensures AnyDmarc(level, nodes) <==> SaysDmarc(level, nodes[0]) || AnyDmarc(level, nodes[1..])
  {
    var rest := nodes[1..];
    assert forall i :: 0 <= i < |rest| ==> rest[i] == nodes[i + 1];
    if i :| 0 < i < |nodes| && SaysDmarc(level, nodes[i]) {
      assert SaysDmarc(level, rest[i - 1]);
    }
  }

  lemma {:induction false} NamedFirst(m: Modules, nodes: seq<Node>)
    requires nodes != []
    ensures ChecksOf(m, nodes) == ChecksOf(m, [nodes[0]]) + ChecksOf(m, nodes[1..])
    ensures ModifiersOf(m, nodes) == ModifiersOf(m, [nodes[0]]) + ModifiersOf(m, nodes[1..])
  {
    var node := nodes[0];
    assert [node][1..] == [];
    var checks := if node.name == "check" && m.checks(node).Some? then m.checks(node).value else [];
    var modifiers := if node.name == "modify" && m.modifiers(node).Some? then m.modifiers(node).value else [];
    assert ChecksOf(m, [node]) == checks + [] == checks && ModifiersOf(m, [node]) == modifiers + [] == modifiers;
  }

  lemma {:induction false} GainedOn<B>(m: Modules, level: Level<B>, a: Reading<B>, nodes: seq<Node>, b: Reading<B>, c: Reading<B>)
    requires nodes != [] && Gained(m, level, a, [nodes[0]], b) && Gained(m, level, b, nodes[1..], c)
    ensures Gained(m, level, a, nodes, c)
  {
    var node := nodes[0];
    NamedFirst(m, nodes);
    ConcatAssoc(a.checks, ChecksOf(m, [node]), ChecksOf(m, nodes[1..]));
    ConcatAssoc(a.modifiers, ModifiersOf(m, [node]), ModifiersOf(m, nodes[1..]));
    DmarcFirst(level, nodes);
    DmarcFirst(level, [node]);
  }

  lemma {:induction false} AllGain<B>(m: Modules, level: Level<B>, r: Reading<B>, nodes: seq<Node>, i: nat)
    requires Distinct(level) && i <= |nodes| && ReadFrom(m, level, r, nodes, i).Ok?
    ensures Gained(m, level, r, nodes[i..], ReadFrom(m, level, r, nodes, i).value)
    decreases |nodes| - i
  {
    if i == |nodes| {
      assert r.checks + [] == r.checks && r.modifiers + [] == r.modifiers;
    } else {
      var next := ReadOne(m, level, r, i, nodes[i]).value;
      OneGains(m, level, r, i, nodes[i]);
      AllGain(m, level, next, nodes, i + 1);
      assert nodes[i..][0] == nodes[i] && nodes[i..][1..] == nodes[i + 1..];
      GainedOn(m, level, r, nodes[i..], next, ReadFrom(m, level, r, nodes, i).value);
    }
  }

  /** A level that has been read has exactly the checks and modifiers that its directives name, in their order,
      and DMARC exactly if it is a level that can have it and some directive turns it on. */
  lemma {:induction false} ContentsByDeclaration<B>(m: Modules, level: Level<B>, nodes: seq<Node>)
    requires Distinct(level) && Read(m, level, nodes).Ok?
    ensures var section := Read(m, level, nodes).value;
            && section.checks == ChecksOf(m, nodes) && section.modifiers == ModifiersOf(m, nodes)
            && (section.dmarc <==> AnyDmarc(level, nodes))
  {
    AllGain(m, level, Nothing(), nodes, 0);
    assert nodes[0..] == nodes && [] + ChecksOf(m, nodes) == ChecksOf(m, nodes) && [] + ModifiersOf(m, nodes) == ModifiersOf(m, nodes);
  }

  /** So have a source block and the pipeline, and a source block's rules and those of the pipeline come from the
      same directives. */
  lemma {:induction false} PipelineContents(m: Modules, nodes: seq<Node>)
    ensures ReadSource(m, nodes).Ok? ==>
              var source := ReadSource(m, nodes).value;
              source.checks == ChecksOf(m, nodes) && source.modifiers == ModifiersOf(m, nodes)
    ensures ReadConfig(m, nodes).Ok? ==>
              var config := ReadConfig(m, nodes).value;
              && config.checks == ChecksOf(m, nodes) && config.modifiers == ModifiersOf(m, nodes)
              && (config.doDMARC <==> exists i :: 0 <= i < |nodes| && nodes[i].name == "dmarc" && (nodes[i].args == [] || nodes[i].args == ["yes"]))
  {
    LevelsDistinct(m);
    if ReadSource(m, nodes).Ok? {
      ContentsByDeclaration(m, SourceLevel(m), nodes);
    }
    if ReadConfig(m, nodes).Ok? {
      ContentsByDeclaration(m, RootLevel(m), nodes);
      assert forall i :: 0 <= i < |nodes| ==> (SaysDmarc(RootLevel(m), nodes[i]) <==> nodes[i].name == "dmarc" && (nodes[i].args == [] || nodes[i].args == ["yes"]));
    }
  }

  // ---------------------------------------------------------------- when a level can be read

  /** The directive is one of this level and can be read where it stands. */
  ghost predicate Fine<B>(m: Modules, level: Level<B>, nodes: seq<Node>, i: nat)
    requires i < |nodes|
  {
    var node, block := nodes[i], level.read(i + 1, Children(nodes[i]));
    if node.name == "check" then m.checks(node).Some?
    else if node.name == "modify" then m.modifiers(node).Some?
    else if node.name == level.inWord then m.table(node.args).Some? && block.Ok?
    else if node.name == level.word then block.Ok? && node.args != [] && ValidRules(m, node.args)
    else if node.name == level.defaultWord then DefaultNodes(level, nodes, i).None?
    else if node.name == "dmarc" && level.dmarc then |node.args| == 1 ==> node.args[0] in {"yes", "no"}
    else node.name in level.loose
  }

  ghost predicate ValidRules(m: Modules, rules: seq<string>) {
    forall k :: 0 <= k < |rules| ==> RuleKey(m, rules[k]).Some?
  }

  lemma {:induction false} RulesRead<B>(m: Modules, exact: map<string, B>, rules: seq<string>, block: B)
    ensures WithRules(m, exact, rules, block).Ok? <==> ValidRules(m, rules)
    decreases |rules|
  {
    if rules != [] {
      var key, rest := RuleKey(m, rules[0]), rules[1..];
      assert forall k :: 0 <= k < |rest| ==> rest[k] == rules[k + 1];
      assert ValidRules(m, rules) <==> key.Some? && ValidRules(m, rest) by {
        if key.Some? && ValidRules(m, rest) {
          forall k | 0 <= k < |rules| ensures RuleKey(m, rules[k]).Some? {
            assert k > 0 ==> rules[k] == rest[k - 1];
          }
        }
      }
      if key.Some? {
        RulesRead(m, if key.value in exact then exact else exact[key.value := block], rest, block);
      }
    }
  }

  lemma {:induction false} OneRead<B>(m: Modules, level: Level<B>, r: Reading<B>, nodes: seq<Node>, i: nat)
    requires Distinct(level) && i < |nodes| && RestRight(level, nodes, i, r)
    ensures ReadOne(m, level, r, i, nodes[i]).Ok? <==> Fine(m, level, nodes, i)
  {
    WordsApart(level);
    var block := level.read(i + 1, Children(nodes[i]));
    if nodes[i].name == level.word && block.Ok? {
      RulesRead(m, r.exact, nodes[i].args, block.value);
    }
  }

  lemma {:induction false} AllRead<B>(m: Modules, level: Level<B>, r: Reading<B>, nodes: seq<Node>, i: nat)
    requires Distinct(level) && i <= |nodes| && RestRight(level, nodes, i, r)
    ensures ReadFrom(m, level, r, nodes, i).Ok? <==> forall j :: i <= j < |nodes| ==> Fine(m, level, nodes, j)
    decreases |nodes| - i
  {
    if i < |nodes| {
      OneRead(m, level, r, nodes, i);
      if Fine(m, level, nodes, i) {
        RestAdded(m, level, r, nodes, i);
        AllRead(m, level, ReadOne(m, level, r, i, nodes[i]).value, nodes, i + 1);
      }
    }
  }

  /** A level can be read exactly if each directive can and there is a default: a block of its own, with no
      directives outside the rules beside it, or such directives, if there are no rules. */
  lemma {:induction false} ReadExactlyWhen<B>(m: Modules, level: Level<B>, nodes: seq<Node>)
    requires Distinct(level)
    ensures Read(m, level, nodes).Ok? <==>
              (forall i :: 0 <= i < |nodes| ==> Fine(m, level, nodes, i)) && exists block :: IsDefault(level, nodes, block)
  {
    var start: Reading<B> := Nothing();
    AllRead(m, level, start, nodes, 0);
    var all := ReadFrom(m, level, start, nodes, 0);
    if all.Ok? {
      AllRestRight(m, level, start, nodes, 0);
      DefaultRead(level, nodes, all.value);
    }
  }

  lemma {:induction false} DefaultRead<B>(level: Level<B>, nodes: seq<Node>, r: Reading<B>)
    requires RestRight(level, nodes, |nodes|, r)
    ensures ReadDefault(level, r).Ok? <==> exists block :: IsDefault(level, nodes, block)
  {
    if ReadDefault(level, r).Ok? {
      assert IsDefault(level, nodes, ReadDefault(level, r).value);
    }
  }
}
