/** Macros: an argument that is a reference stands for the values of the macro, and none is left in an
    accepted file. */
module ParserMacros {
  import opened Common
  import opened Lexer
  import opened Dispenser
  import opened Parser

  // ---------------------------------------------------------------- what a reference stands for

  function ValuesOf(macros: Macros, name: string): seq<string> {
    if name in macros then macros[name] else []
  }

  lemma {:induction false} ReferenceIsRef(name: string)
    ensures IsMacroRef(Reference(name)) && MacroRefName(Reference(name)) == name
  {
    var s := Reference(name);
    assert s[..2] == "$(" && s[|s| - 1..] == ")";
    assert s[2..|s| - 1] == name;
  }

  lemma {:induction false} ArgsConcat(macros: Macros, a: seq<string>, b: seq<string>)
    requires ExpandArgs(macros, a).Ok? && ExpandArgs(macros, b).Ok?
    ensures ExpandArgs(macros, a + b) == Ok(ExpandArgs(macros, a).value + ExpandArgs(macros, b).value)
  {
    if a == [] {
      assert a + b == b;
      assert [] + ExpandArgs(macros, b).value == ExpandArgs(macros, b).value;
    } else {
      assert (a + b)[1..] == a[1..] + b;
      ArgsConcat(macros, a[1..], b);
      ConcatAssoc(ExpandArg(macros, a[0]).value, ExpandArgs(macros, a[1..]).value, ExpandArgs(macros, b).value);
    }
  }

  /** Wherever it stands among the arguments, a reference is replaced by all the values of its macro, and by
      nothing if there is no such macro; the arguments around it are not affected. */
  lemma {:induction false} ReferenceIsReplaced(macros: Macros, before: seq<string>, name: string, after: seq<string>)
    requires ExpandArgs(macros, before).Ok? && ExpandArgs(macros, after).Ok?
    ensures ExpandArgs(macros, before + [Reference(name)] + after)
         == Ok(ExpandArgs(macros, before).value + ValuesOf(macros, name) + ExpandArgs(macros, after).value)
  {
    ReferenceIsRef(name);
    var ref := [Reference(name)];
    assert ref[1..] == [] && ValuesOf(macros, name) + [] == ValuesOf(macros, name);
    assert ExpandArgs(macros, ref) == Ok(ValuesOf(macros, name));
    ArgsConcat(macros, before, ref);
    ArgsConcat(macros, before + ref, after);
  }

  // ---------------------------------------------------------------- references inside an argument

  /** Begins with two dollar signs and ends with a parenthesis: what is replaced inside may leave a reference. */
  predicate Doubled(s: string) {
    HasPrefix(s, "$$") && HasSuffix(s, ")")
  }

  /** Neither a reference nor able to become one. */
  predicate Inert(s: string) {
    !IsMacroRef(s) && !Doubled(s)
  }

  /** What an inert argument is known by: a character at its start or its end that no replacement touches. */
  lemma {:induction false} InertChars(s: string)
    ensures Inert(s) <==> s == "" || s[0] != '$' || Last(s) != ')' || (|s| > 1 && s[1] != '(' && s[1] != '$')
  {
    if |s| > 1 {
      assert s[..2] == [s[0], s[1]] && s[|s| - 1..] == [Last(s)];
    } else if |s| == 1 {
      assert s[0..] == s;
    }
  }

  lemma {:induction false} ReferenceChars(name: string)
    ensures |Reference(name)| >= 3 && Reference(name)[0] == '$' && Reference(name)[1] == '(' && Last(Reference(name)) == ')'
  {
  }

  lemma {:induction false} ReplaceKeepsLast(s: string, name: string, value: string)
    requires s != "" && Last(s) != ')'
    ensures ReplaceAll(s, Reference(name), value) != "" && Last(ReplaceAll(s, Reference(name), value)) == Last(s)
    decreases |s|
  {
    var ref := Reference(name);
    ReferenceChars(name);
    if HasPrefix(s, ref) {
      assert s[|ref| - 1] == Last(ref);
      ReplaceKeepsLast(s[|ref|..], name, value);
    } else if |s| > 1 {
      ReplaceKeepsLast(s[1..], name, value);
    }
  }

  lemma {:induction false} ReplaceKeepsFirst(s: string, name: string, value: string)
    requires s != "" && !HasPrefix(s, "$(")
    ensures ReplaceAll(s, Reference(name), value) == [s[0]] + ReplaceAll(s[1..], Reference(name), value)
  {
    ReferenceChars(name);
  }

  lemma {:induction false} ReplaceKeepsInert(s: string, name: string, value: string)
    requires Inert(s)
    ensures Inert(ReplaceAll(s, Reference(name), value))
  {
    InertChars(s);
    var r := ReplaceAll(s, Reference(name), value);
    InertChars(r);
    if s != "" && Last(s) != ')' {
      ReplaceKeepsLast(s, name, value);
    } else if s != "" {
      ReplaceKeepsFirst(s, name, value);
      if s[0] == '$' {
        ReplaceKeepsFirst(s[1..], name, value);
      }
    }
  }

  lemma {:induction false} SpliceKeepsInert(macros: Macros, names: seq<string>, arg: string)
    requires Inert(arg) && Splice(macros, names, arg).Ok?
    ensures Inert(Splice(macros, names, arg).value)
  {
    if names != [] {
      var value := if names[0] in macros then macros[names[0]][0] else "";
      ReplaceKeepsInert(arg, names[0], value);
      SpliceKeepsInert(macros, names[1..], ReplaceAll(arg, Reference(names[0]), value));
    }
  }

  // ---------------------------------------------------------------- no reference is left

  ghost predicate NoRefs(args: seq<string>) {
    forall i :: 0 <= i < |args| ==> Inert(args[i])
  }

  ghost predicate NoneDoubled(args: seq<string>) {
    forall i :: 0 <= i < |args| ==> !Doubled(args[i])
  }

  ghost predicate Resolved(node: Node) {
    NoRefs(node.args) && (node.block.Block? ==> AllResolved(node.block.nodes))
  }

  ghost predicate AllResolved(nodes: seq<Node>) {
    nodes == [] || (Resolved(nodes[0]) && AllResolved(nodes[1..]))
  }

  ghost predicate BlockResolved(block: Block) {
    block.Block? ==> AllResolved(block.nodes)
  }

  ghost predicate MacrosResolved(macros: Macros) {
    forall name :: name in macros ==> NoRefs(macros[name])
  }

  ghost predicate TablesResolved(st: State) {
    MacrosResolved(st.macros) && SnippetsResolved(st.snippets)
  }

  ghost predicate SnippetsResolved(snippets: Snippets) {
    forall name :: name in snippets ==> AllResolved(snippets[name])
  }

  /** No word of the file begins with two dollar signs and ends with a parenthesis. */
  ghost predicate PlainFile(env: Env) {
    forall i :: 0 <= i < |env.tokens| ==> !Doubled(env.tokens[i].text)
  }

  lemma {:induction false} ResolvedConcat(a: seq<Node>, b: seq<Node>)
    requires AllResolved(a) && AllResolved(b)
    ensures AllResolved(a + b)
  {
    if a == [] {
      assert a + b == b;
    } else {
      assert (a + b)[1..] == a[1..] + b;
      ResolvedConcat(a[1..], b);
    }
  }

  lemma {:induction false} ArgsResolved(macros: Macros, args: seq<string>)
    requires NoneDoubled(args) && MacrosResolved(macros) && ExpandArgs(macros, args).Ok?
    ensures NoRefs(ExpandArgs(macros, args).value)
  {
    if args != [] {
      ArgsResolved(macros, args[1..]);
      if !IsMacroRef(args[0]) && HoldsMacroRef(args[0]) {
        SpliceKeepsInert(macros, NamesIn(args[0]), args[0]);
      }
      assert NoRefs(ExpandArg(macros, args[0]).value);
    }
  }

  lemma {:induction false} NodeResolved(macros: Macros, node: Node)
    requires NoneDoubled(node.args) && BlockResolved(node.block) && MacrosResolved(macros) && ExpandMacros(macros, node).Ok?
    ensures Resolved(ExpandMacros(macros, node).value)
    decreases node, 1
  {
    ArgsResolved(macros, node.args);
    if node.block.Block? {
      NodesResolved(macros, node.block.nodes);
    }
  }

  lemma {:induction false} NodesResolved(macros: Macros, nodes: seq<Node>)
    requires AllResolved(nodes) && MacrosResolved(macros) && ExpandMacrosAll(macros, nodes).Ok?
    ensures AllResolved(ExpandMacrosAll(macros, nodes).value)
    decreases nodes, 0
  {
    if nodes != [] {
      NodeResolved(macros, nodes[0]);
      NodesResolved(macros, nodes[1..]);
      var first, rest := ExpandMacros(macros, nodes[0]).value, ExpandMacrosAll(macros, nodes[1..]).value;
      assert ([first] + rest)[1..] == rest;
    }
  }

  /** A macro keeps resolved values, a snippet a resolved body, and what is kept of anything else is resolved. */
  lemma {:induction false} SettleResolves(st: State, read: Node)
    requires NoneDoubled(read.args) && TablesResolved(st) && BlockResolved(read.block) && Settle(st, read).Ok?
    ensures TablesResolved(Settle(st, read).value.st) && AllResolved(Settle(st, read).value.kept)
  {
    var closes := read.args != [] && Last(read.args) == "}";
    var node := if closes then read.(args := Front(read.args)) else read;
    if node.isMacro {
      NodeResolved(st.macros, node);
      var macro := ExpandMacros(st.macros, node).value;
      MacrosGrow(st.macros, macro.name, macro.args);
    } else if node.isSnippet {
      SnippetsGrow(st.snippets, node.name, if node.block.NoBlock? then [] else node.block.nodes);
    } else {
      NodeResolved(st.macros, node);
      OneResolved(ExpandMacros(st.macros, node).value);
    }
  }

  lemma {:induction false} MacrosGrow(macros: Macros, name: string, values: seq<string>)
    requires MacrosResolved(macros) && NoRefs(values)
    ensures MacrosResolved(macros[name := values])
  {
  }

  lemma {:induction false} SnippetsGrow(snippets: Snippets, name: string, body: seq<Node>)
    requires SnippetsResolved(snippets) && AllResolved(body)
    ensures SnippetsResolved(snippets[name := body])
  {
  }

  lemma {:induction false} OneResolved(node: Node)
    requires Resolved(node)
    ensures AllResolved([node])
  {
    assert [node][1..] == [];
  }

  lemma {:induction false} DirectiveResolves(env: Env, st: State)
    requires PlainFile(env) && TablesResolved(st) && 0 <= st.cursor < |env.tokens| && NodeFrom(env, st).Ok?
    ensures var read := NodeFrom(env, st).value;
            TablesResolved(read.st) && BlockResolved(read.node.block) && NoneDoubled(read.node.args)
    decreases 2 * (|env.tokens| - st.cursor), 2
  {
    ArgumentsResolve(env, st, [], NoBlock, false);
  }

  lemma {:induction false} ArgumentsResolve(env: Env, st: State, args: seq<string>, block: Block, joined: bool)
    requires PlainFile(env) && TablesResolved(st) && BlockResolved(block) && NoneDoubled(args)
    requires 0 <= st.cursor < |env.tokens| && ArgsFrom(env, st, args, block, joined).Ok?
    ensures var read := ArgsFrom(env, st, args, block, joined).value;
            TablesResolved(read.st) && BlockResolved(read.block) && NoneDoubled(read.args)
    decreases 2 * (|env.tokens| - st.cursor) + |args|, 1
  {
    if CanNextArg(env.tokens, st.cursor) || (joined && CanNextLine(env.tokens, st.cursor)) {
      WordResolves(env, st.(cursor := st.cursor + 1), args, block);
    } else if args != [] && Last(args) == "\\" {
      ArgumentsResolve(env, st, Front(args), block, true);
    }
  }

  lemma {:induction false} WordResolves(env: Env, st: State, args: seq<string>, block: Block)
    requires PlainFile(env) && TablesResolved(st) && BlockResolved(block) && NoneDoubled(args)
    requires 0 <= st.cursor < |env.tokens| && TakeWord(env, st, args, block).Ok?
    ensures var read := TakeWord(env, st, args, block).value;
            TablesResolved(read.st) && BlockResolved(read.block) && NoneDoubled(read.args)
    decreases 2 * (|env.tokens| - st.cursor) + |args| + 1, 2
  {
    var word := TextAt(env.tokens, st.cursor);
    if word != "{" {
      ArgumentsResolve(env, st, args + [word], block, false);
    } else {
      LinesResolve(env, st.(nesting := st.nesting + 1), [], false);
      var read := NodesFrom(env, st).value;
      if args != [] && Last(args) == "\\" {
        ArgumentsResolve(env, read.st, Front(args), Block(read.nodes), true);
      }
    }
  }

  lemma {:induction false} LineResolves(env: Env, st: State, newline: bool)
    requires PlainFile(env) && TablesResolved(st) && -1 <= st.cursor < |env.tokens| && LineFrom(env, st, newline).Ok?
    ensures TablesResolved(LineFrom(env, st, newline).value.st) && AllResolved(LineFrom(env, st, newline).value.kept)
    decreases 2 * (|env.tokens| - st.cursor), 0
  {
    if DirectiveAhead(env, st) {
      var read := LineOfDirective(env, st, newline);
      DirectiveSettles(env, st.(cursor := st.cursor + 1), read);
    } else {
      LineWithoutDirective(env, st, newline);
    }
  }

  lemma {:induction false} DirectiveSettles(env: Env, st: State, read: NodeRead)
    requires PlainFile(env) && TablesResolved(st) && 0 <= st.cursor < |env.tokens| && NodeFrom(env, st) == Ok(read)
    requires Settle(read.st, read.node).Ok?
    ensures TablesResolved(Settle(read.st, read.node).value.st) && AllResolved(Settle(read.st, read.node).value.kept)
    decreases 2 * (|env.tokens| - st.cursor), 3
  {
    DirectiveResolves(env, st);
    SettleResolves(read.st, read.node);
  }

  lemma {:induction false} LinesResolve(env: Env, st: State, nodes: seq<Node>, newline: bool)
    requires PlainFile(env) && TablesResolved(st) && AllResolved(nodes)
    requires -1 <= st.cursor < |env.tokens| && LinesFrom(env, st, nodes, newline).Ok?
    ensures var read := LinesFrom(env, st, nodes, newline).value;
            TablesResolved(read.st) && AllResolved(read.nodes)
    decreases 2 * (|env.tokens| - st.cursor), 1
  {
    LineResolves(env, st, newline);
    var line := LineFrom(env, st, newline).value;
    ResolvedConcat(nodes, line.kept);
    if !line.stop {
      LinesResolve(env, line.st, nodes + line.kept, true);
    }
  }

  /** In an accepted file without a word that begins with two dollar signs and ends with a parenthesis, no
      argument, at any depth, of a directive or of a snippet's body is a macro reference, and neither is any
      value of a macro. */
  lemma {:induction false} NoReferenceSurvives(env: Env)
    requires PlainFile(env) && TreeOf(env).Ok?
    ensures AllResolved(TreeOf(env).value.nodes) && TablesResolved(TreeOf(env).value.st)
  {
    LinesResolve(env, INITIAL.(nesting := 0), [], false);
  }

  // ---------------------------------------------------------------- where one survives

  lemma {:induction false} RefEndsLast(s: string, k: nat, best: nat)
    requires k < |s| && Last(s) == ')' && '$' !in s[k..]
    ensures RefEnd(s, k, best) == |s|
    decreases |s| - k
  {
    assert s[k] in s[k..] && s[k..][1..] == s[k + 1..];
    if k < |s| - 1 {
      RefEndsLast(s, k + 1, if s[k] == ')' then k + 1 else best);
    }
  }

  lemma {:induction false} OneNameIn(name: string)
    requires name != "" && '$' !in name
    ensures NamesIn("$" + Reference(name)) == [name]
  {
    var ref := Reference(name);
    var s := "$" + ref;
    assert s[1..] == ref && s[1] == '$';
    assert ref[3..] == name[1..] + ")" && ref[2] == name[0];
    RefEndsLast(ref, 3, 0);
    assert ref[2..|ref| - 1] == name && ref[|ref|..] == "";
    assert NamesIn(ref) == [name] + NamesIn("") == [name];
  }

  /** A reference after a dollar sign is replaced by the value of the macro, and the dollar sign stays: it
      leaves a reference exactly when that value is in parentheses. */
  lemma {:induction false} DoubledIsSpliced(macros: Macros, name: string, value: string)
    requires name != "" && '$' !in name && name in macros && macros[name] == [value]
    ensures ExpandArg(macros, "$" + Reference(name)) == Ok(["$" + value])
    ensures IsMacroRef("$" + value) <==> HasPrefix(value, "(") && HasSuffix(value, ")")
  {
    var ref := Reference(name);
    var s := "$" + ref;
    assert s[1..] == ref && s[1] == '$' && s[|s| - 1..] == ")";
    assert "$(" <= s[1..] && ")" <= s[|s| - 1..];
    OneNameIn(name);
    assert ref[|ref|..] == "";
    assert ReplaceAll(ref, ref, value) == value + ReplaceAll("", ref, value) == value;
    ReplaceKeepsFirst(s, name, value);
    assert Splice(macros, [name][1..], "$" + value) == Ok("$" + value);
    assert Splice(macros, [name], s) == Ok("$" + value);
    ParenthesisedValue(value);
  }

  lemma {:induction false} ParenthesisedValue(value: string)
    ensures IsMacroRef("$" + value) <==> HasPrefix(value, "(") && HasSuffix(value, ")")
  {
    var s := "$" + value;
    if value != "" {
      assert s[1] == value[0] && s[..2] == ['$', value[0]] && value[..1] == [value[0]];
      assert s[|s| - 1..] == [Last(value)] && value[|value| - 1..] == [Last(value)];
    }
  }

  /** A file of two lines that is accepted with a reference left in it: the macro `a` stands for `(foo)`,
      and `$$(a)` becomes `$(foo)`. */
  const SURVIVOR := [Token("", 1, "$(a)"), Token("", 1, "="), Token("", 1, "(foo)"), Token("", 2, "x"), Token("", 2, "$$(a)")]

  lemma {:induction false} SurvivorLines()
    ensures SameLine(SURVIVOR, 0) && SameLine(SURVIVOR, 1) && !SameLine(SURVIVOR, 2) && LaterLine(SURVIVOR, 2) && SameLine(SURVIVOR, 3)
  {
    assert Breaks("$(a)") == 0 && Breaks("=") == 0 && Breaks("(foo)") == 0 && Breaks("x") == 0;
  }

  lemma {:induction false} FirstLineArgs(env: Env, here: State, last: State)
    requires env.tokens == SURVIVOR && here.cursor == 0 && last == here.(cursor := 2)
    ensures ArgsFrom(env, here, [], NoBlock, false) == Ok(ArgsRead(["=", "(foo)"], NoBlock, last))
  {
    SurvivorLines();
    var args := ["=", "(foo)"];
    assert ArgsFrom(env, last, args, NoBlock, false) == Ok(ArgsRead(args, NoBlock, last));
    assert ["="] + ["(foo)"] == args && [] + ["="] == ["="];
    assert ArgsFrom(env, here.(cursor := 1), ["="], NoBlock, false) == ArgsFrom(env, last, args, NoBlock, false);
  }

  lemma {:induction false} FirstLineNode(env: Env, here: State, last: State)
    requires env.tokens == SURVIVOR && here.cursor == 0 && last == here.(cursor := 2)
    ensures NodeFrom(env, here) == Ok(NodeRead(Node("a", ["(foo)"], NoBlock, false, true), last))
  {
    FirstLineArgs(env, here, last);
    ReferenceIsRef("a");
    assert Reference("a") == "$(a)" && ["=", "(foo)"][1..] == ["(foo)"];
  }

  lemma {:induction false} ReferenceHasDollar(s: string)
    ensures IsMacroRef(s) || HoldsMacroRef(s) ==> '$' in s
  {
    if Contains(s, "$(") {
      var i :| 0 <= i <= |s| && "$(" <= s[i..];
      assert s[i] == s[i..][0] == "$("[0] == '$';
    }
    if IsMacroRef(s) {
      MacroRefLength(s);
      assert s[0] == "$("[0] == '$';
    }
  }

  lemma {:induction false} FirstLineValue()
    ensures ExpandArgs(map[], ["(foo)"]) == Ok(["(foo)"])
  {
    ReferenceHasDollar("(foo)");
    assert ["(foo)"][1..] == [] && ["(foo)"] + [] == ["(foo)"];
  }

  lemma {:induction false} FirstLine(env: Env, start: State)
    requires env.tokens == SURVIVOR && start == INITIAL.(nesting := 0)
    ensures LineFrom(env, start, false) == Ok(Settled(start.(cursor := 2, macros := map["a" := ["(foo)"]]), [], false))
  {
    var here, last := start.(cursor := 0), start.(cursor := 2);
    FirstLineNode(env, here, last);
    FirstLineValue();
    assert Settle(last, Node("a", ["(foo)"], NoBlock, false, true)) == Ok(Settled(last.(macros := map["a" := ["(foo)"]]), [], false));
  }

  lemma {:induction false} SurvivingArgument(macros: Macros, name: string, value: string, arg: string, left: string)
    requires name != "" && '$' !in name && name in macros && macros[name] == [value]
    requires arg == "$" + Reference(name) && left == "$" + value
    ensures ExpandArgs(macros, [arg]) == Ok([left])
  {
    DoubledIsSpliced(macros, name, value);
    assert [arg][1..] == [] && [left] + [] == [left];
  }

  lemma {:induction false} SecondLine(env: Env, st: State)
    requires env.tokens == SURVIVOR && st == INITIAL.(nesting := 0, cursor := 2, macros := map["a" := ["(foo)"]])
    ensures LineFrom(env, st, true) == Ok(Settled(st.(cursor := 4), [Node("x", ["$(foo)"], NoBlock, false, false)], false))
  {
    SurvivorLines();
    var here, last := st.(cursor := 3), st.(cursor := 4);
    var args := ["$$(a)"];
    assert ArgsFrom(env, last, args, NoBlock, false) == Ok(ArgsRead(args, NoBlock, last));
    assert [] + ["$$(a)"] == args;
    assert ArgsFrom(env, here, [], NoBlock, false) == ArgsFrom(env, last, args, NoBlock, false);
    var node := Node("x", args, NoBlock, false, false);
    assert NodeFrom(env, here) == Ok(NodeRead(node, last));
    assert "$" + Reference("a") == "$$(a)" && "$" + "(foo)" == "$(foo)";
    SurvivingArgument(st.macros, "a", "(foo)", "$$(a)", "$(foo)");
    assert Settle(last, node) == Ok(Settled(last, [node.(args := ["$(foo)"])], false));
  }

  lemma {:induction false} OneSurvives(letter: char -> bool, digit: char -> bool)
    ensures var read := TreeOf(Env(SURVIVOR, letter, digit));
            read.Ok? && read.value.nodes == [Node("x", ["$(foo)"], NoBlock, false, false)] && IsMacroRef("$(foo)")
  {
    var env := Env(SURVIVOR, letter, digit);
    var start := INITIAL.(nesting := 0);
    var first := start.(cursor := 2, macros := map["a" := ["(foo)"]]);
    FirstLine(env, start);
    SecondLine(env, first);
    var node := Node("x", ["$(foo)"], NoBlock, false, false);
    var second := first.(cursor := 4);
    assert LinesFrom(env, second, [] + [node], true) == Ok(NodesRead([] + [node] + [], second));
    assert LinesFrom(env, first, [] + [], true) == LinesFrom(env, second, [] + [] + [node], true);
    assert LinesFrom(env, start, [], false) == LinesFrom(env, first, [] + [], true);
    assert [] + [node] + [] == [node];
    DoubledIsSpliced(first.macros, "a", "(foo)");
  }
}
