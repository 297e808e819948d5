/** What the parser lets into a tree: directives with proper names, and neither snippets nor macros. */
module ParserNames {
  import opened Common
  import opened Lexer
  import opened Dispenser
  import opened Parser

  ghost predicate Proper(env: Env, node: Node) {
    && ValidName(env, node.name) && !node.isSnippet && !node.isMacro
    && (node.block.Block? ==> AllProper(env, node.block.nodes))
  }

  /** At any depth. */
  ghost predicate AllProper(env: Env, nodes: seq<Node>) {
    nodes == [] || (Proper(env, nodes[0]) && AllProper(env, nodes[1..]))
  }

  ghost predicate ProperBlock(env: Env, block: Block) {
    block.Block? ==> AllProper(env, block.nodes)
  }

  ghost predicate ProperTable(env: Env, snippets: Snippets) {
    forall name :: name in snippets ==> AllProper(env, snippets[name])
  }

  /** What has been read of a directive: proper, but that it may declare something. */
  ghost predicate Readable(env: Env, node: Node) {
    (node.isMacro || node.isSnippet || ValidName(env, node.name)) && ProperBlock(env, node.block)
  }

  lemma {:induction false} ProperConcat(env: Env, a: seq<Node>, b: seq<Node>)
    requires AllProper(env, a) && AllProper(env, b)
    ensures AllProper(env, a + b)
  {
    if a == [] {
      assert a + b == b;
    } else {
      assert (a + b)[0] == a[0] && (a + b)[1..] == a[1..] + b;
      ProperConcat(env, a[1..], b);
    }
  }

  lemma {:induction false} ExpandedProper(env: Env, macros: Macros, node: Node)
    requires Proper(env, node) && ExpandMacros(macros, node).Ok?
    ensures Proper(env, ExpandMacros(macros, node).value)
    decreases node, 1
  {
    if node.block.Block? {
      AllExpandedProper(env, macros, node.block.nodes);
    }
  }

  lemma {:induction false} AllExpandedProper(env: Env, macros: Macros, nodes: seq<Node>)
    requires AllProper(env, nodes) && ExpandMacrosAll(macros, nodes).Ok?
    ensures AllProper(env, ExpandMacrosAll(macros, nodes).value)
    decreases nodes, 0
  {
    if nodes != [] {
      ExpandedProper(env, macros, nodes[0]);
      AllExpandedProper(env, macros, nodes[1..]);
      var first, rest := ExpandMacros(macros, nodes[0]).value, ExpandMacrosAll(macros, nodes[1..]).value;
      assert ([first] + rest)[1..] == rest;
    }
  }

  lemma {:induction false} SettledProper(env: Env, st: State, read: Node)
    requires Readable(env, read) && ProperTable(env, st.snippets) && Settle(st, read).Ok?
    ensures ProperTable(env, Settle(st, read).value.st.snippets) && AllProper(env, Settle(st, read).value.kept)
  {
    var closes := read.args != [] && Last(read.args) == "}";
    var node := if closes then read.(args := Front(read.args)) else read;
    if !node.isMacro && !node.isSnippet {
      assert Proper(env, node);
      ExpandedProper(env, st.macros, node);
      assert [ExpandMacros(st.macros, node).value][1..] == [];
    }
  }

  lemma {:induction false} NodeProper(env: Env, st: State)
    requires ProperTable(env, st.snippets) && 0 <= st.cursor < |env.tokens| && NodeFrom(env, st).Ok?
    ensures Readable(env, NodeFrom(env, st).value.node) && ProperTable(env, NodeFrom(env, st).value.st.snippets)
    decreases 2 * (|env.tokens| - st.cursor), 2
  {
    ArgsProper(env, st, [], NoBlock, false);
  }

  lemma {:induction false} ArgsProper(env: Env, st: State, args: seq<string>, block: Block, joined: bool)
    requires ProperTable(env, st.snippets) && ProperBlock(env, block)
    requires 0 <= st.cursor < |env.tokens| && ArgsFrom(env, st, args, block, joined).Ok?
    ensures var read := ArgsFrom(env, st, args, block, joined).value;
            ProperTable(env, read.st.snippets) && ProperBlock(env, read.block)
    decreases 2 * (|env.tokens| - st.cursor) + |args|, 1
  {
    if CanNextArg(env.tokens, st.cursor) || (joined && CanNextLine(env.tokens, st.cursor)) {
      WordProper(env, st.(cursor := st.cursor + 1), args, block);
    } else if args != [] && Last(args) == "\\" {
      ArgsProper(env, st, Front(args), block, true);
    }
  }

  lemma {:induction false} WordProper(env: Env, st: State, args: seq<string>, block: Block)
    requires ProperTable(env, st.snippets) && ProperBlock(env, block)
    requires 0 <= st.cursor < |env.tokens| && TakeWord(env, st, args, block).Ok?
    ensures var read := TakeWord(env, st, args, block).value;
            ProperTable(env, read.st.snippets) && ProperBlock(env, read.block)
    decreases 2 * (|env.tokens| - st.cursor) + |args| + 1, 2
  {
    var word := TextAt(env.tokens, st.cursor);
    if word != "{" {
      ArgsProper(env, st, args + [word], block, false);
    } else {
      LinesProper(env, st.(nesting := st.nesting + 1), [], false);
      var read := NodesFrom(env, st).value;
      if args != [] && Last(args) == "\\" {
        ArgsProper(env, read.st, Front(args), Block(read.nodes), true);
      }
    }
  }

  lemma {:induction false} DirectiveProper(env: Env, st: State, read: NodeRead)
    requires ProperTable(env, st.snippets) && 0 <= st.cursor < |env.tokens| && NodeFrom(env, st) == Ok(read)
    requires Settle(read.st, read.node).Ok?
    ensures ProperTable(env, Settle(read.st, read.node).value.st.snippets) && AllProper(env, Settle(read.st, read.node).value.kept)
    decreases 2 * (|env.tokens| - st.cursor), 3
  {
    NodeProper(env, st);
    SettledProper(env, read.st, read.node);
  }

  lemma {:induction false} LineProper(env: Env, st: State, newline: bool)
    requires ProperTable(env, st.snippets) && -1 <= st.cursor < |env.tokens| && LineFrom(env, st, newline).Ok?
    ensures ProperTable(env, LineFrom(env, st, newline).value.st.snippets) && AllProper(env, LineFrom(env, st, newline).value.kept)
    decreases 2 * (|env.tokens| - st.cursor), 0
  {
    if DirectiveAhead(env, st) {
      var read := LineOfDirective(env, st, newline);
      DirectiveProper(env, st.(cursor := st.cursor + 1), read);
    } else {
      LineWithoutDirective(env, st, newline);
    }
  }

  lemma {:induction false} LinesProper(env: Env, st: State, nodes: seq<Node>, newline: bool)
    requires ProperTable(env, st.snippets) && AllProper(env, nodes)
    requires -1 <= st.cursor < |env.tokens| && LinesFrom(env, st, nodes, newline).Ok?
    ensures var read := LinesFrom(env, st, nodes, newline).value;
            ProperTable(env, read.st.snippets) && AllProper(env, read.nodes)
    decreases 2 * (|env.tokens| - st.cursor), 1
  {
    LineProper(env, st, newline);
    var line := LineFrom(env, st, newline).value;
    ProperConcat(env, nodes, line.kept);
    if !line.stop {
      LinesProper(env, line.st, nodes + line.kept, true);
    }
  }

  /** In an accepted file every directive, at any depth and in every snippet, has a valid name, and no declaration
      is left among them. */
  lemma {:induction false} AcceptedNamesValid(env: Env)
    requires TreeOf(env).Ok?
    ensures AllProper(env, TreeOf(env).value.nodes)
    ensures forall name :: name in TreeOf(env).value.st.snippets ==> AllProper(env, TreeOf(env).value.st.snippets[name])
  {
    LinesProper(env, INITIAL.(nesting := 0), [], false);
  }
}
