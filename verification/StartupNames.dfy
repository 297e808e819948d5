/** Registration of configuration blocks: every name a block declares leads to its module. */
module StartupNames {
  import opened Common
  import opened Startup

  /** The factory gave the module the name it was asked for. */
  ghost predicate KeepsName(block: ConfigBlock) {
    block.kind == ModuleBlock && block.created.Some? ==> ReportedName(block.created.value) == InstName(block)
  }

  /** An alias leads to an instance, and is not the name of one. */
  ghost predicate NamesApart(reg: Registry) {
    forall a :: a in reg.aliases && reg.aliases[a] != "" ==> reg.aliases[a] in reg.instances && a !in reg.instances
  }

  /** What names led to, they still lead to. */
  ghost predicate NamesKept(a: Registry, b: Registry) {
    && (forall n :: n in a.instances ==> n in b.instances && b.instances[n] == a.instances[n])
    && (forall n :: n in a.aliases && a.aliases[n] != "" ==> n in b.aliases && b.aliases[n] == a.aliases[n])
  }

  /** The block's own name and its aliases lead to its module. */
  ghost predicate Resolves(reg: Registry, block: ConfigBlock) {
    && block.created.Some? && InstName(block) in reg.instances && reg.instances[InstName(block)] == block.created.value
    && Canonical(reg, InstName(block)) == InstName(block)
    && forall i :: 0 <= i < |AliasNames(block)| ==> AliasResolves(reg, AliasNames(block)[i], InstName(block))
  }

  /** Aliases of a block without a name lead nowhere. */
  ghost predicate AliasResolves(reg: Registry, alias: string, name: string) {
    Canonical(reg, alias) == name <==> name != ""
  }

  /** The modules of the endpoint blocks, in the order of the blocks. */
  function EndpointsOf(blocks: seq<ConfigBlock>): seq<Module> {
    if blocks == [] then [] else EndpointOf(blocks[0]) + EndpointsOf(blocks[1..])
  }

  function EndpointOf(block: ConfigBlock): seq<Module> {
    if block.kind == EndpointBlock && block.created.Some? then [block.created.value] else []
  }

  lemma {:induction false} OneEndpoint(acc: Registration, block: ConfigBlock)
    requires RegisterBlock(acc, block).Ok?
    ensures RegisterBlock(acc, block).value.endpoints == acc.endpoints + EndpointOf(block)
  {
  }

  /** The endpoints returned are those of all endpoint blocks, in their order. */
  lemma {:induction false} EndpointsInOrder(acc: Registration, blocks: seq<ConfigBlock>)
    requires RegisterAll(acc, blocks).Ok?
    ensures RegisterAll(acc, blocks).value.endpoints == acc.endpoints + EndpointsOf(blocks)
    decreases |blocks|
  {
    if blocks == [] {
      assert acc.endpoints + [] == acc.endpoints;
    } else {
      OneEndpoint(acc, blocks[0]);
      EndpointsInOrder(RegisterBlock(acc, blocks[0]).value, blocks[1..]);
      ConcatAssoc(acc.endpoints, EndpointOf(blocks[0]), EndpointsOf(blocks[1..]));
    }
  }

  lemma {:induction false} AliasesRight(reg: Registry, names: seq<string>, target: string)
    requires NamesApart(reg) && target in reg.instances && RegisterAliases(reg, names, target).Ok?
    ensures var all := RegisterAliases(reg, names, target).value;
            && NamesApart(all) && NamesKept(reg, all) && all.instances == reg.instances
            && forall i :: 0 <= i < |names| ==>
                 names[i] !in all.instances && (target != "" ==> names[i] in all.aliases && all.aliases[names[i]] == target)
    decreases |names|
  {
    if names != [] {
      var next := reg.(aliases := reg.aliases[names[0] := target]);
      assert names[0] in reg.aliases ==> reg.aliases[names[0]] == "" by {
        assert !HasInstance(reg, names[0]);
      }
      AliasesRight(next, names[1..], target);
      var all := RegisterAliases(next, names[1..], target).value;
      assert target != "" ==> names[0] in next.aliases && next.aliases[names[0]] == target;
      forall i | 0 <= i < |names|
        ensures names[i] !in all.instances && (target != "" ==> names[i] in all.aliases && all.aliases[names[i]] == target)
      {
        assert i > 0 ==> names[i] == names[1..][i - 1];
      }
    }
  }

  /** The names as they are registered. */
  ghost predicate Named(reg: Registry, block: ConfigBlock) {
    var name, others := InstName(block), AliasNames(block);
    && block.created.Some? && name in reg.instances && reg.instances[name] == block.created.value
    && forall i :: 0 <= i < |others| ==> others[i] != name && (name != "" ==> others[i] in reg.aliases && reg.aliases[others[i]] == name)
  }

  lemma {:induction false} AllNamed(acc: Registration, blocks: seq<ConfigBlock>, block: ConfigBlock)
    requires NamesApart(acc.reg) && (forall i :: 0 <= i < |blocks| ==> KeepsName(blocks[i])) && RegisterAll(acc, blocks).Ok?
    ensures var all := RegisterAll(acc, blocks).value.reg;
            NamesApart(all) && NamesKept(acc.reg, all) && (block in blocks && block.kind == ModuleBlock ==> Named(all, block))
    decreases |blocks|
  {
    if blocks != [] {
      var next := RegisterBlock(acc, blocks[0]).value;
      if blocks[0].kind == ModuleBlock {
        var name, mod := InstName(blocks[0]), blocks[0].created.value;
        assert !HasInstance(acc.reg, name);
        AliasesRight(acc.reg.(instances := acc.reg.instances[name := mod]), AliasNames(blocks[0]), name);
      }
      assert forall i :: 0 <= i < |blocks[1..]| ==> blocks[1..][i] == blocks[i + 1];
      AllNamed(next, blocks[1..], block);
    }
  }

  /** After a successful registration every block's name leads to its module, and so do its aliases, exactly
      when the block has a name that is not empty. */
  lemma {:induction false} EveryNameResolves(closes: Uid -> bool, blocks: seq<ConfigBlock>, block: ConfigBlock)
    requires forall i :: 0 <= i < |blocks| ==> KeepsName(blocks[i])
    requires block in blocks && block.kind == ModuleBlock
    requires RegisterAll(Registration(Registry(map[], map[], closes), []), blocks).Ok?
    ensures Resolves(RegisterAll(Registration(Registry(map[], map[], closes), []), blocks).value.reg, block)
  {
    var start := Registration(Registry(map[], map[], closes), []);
    AllNamed(start, blocks, block);
  }
}
