/** Whole files, with the snippets and macros they declare, and the other ways to lay out a directive. */
module ParserFiles {
  import opened Common
  import opened Lexer
  import opened Dispenser
  import opened Parser
  import ParserMacros
  import opened ParserRoundTrip

  // ---------------------------------------------------------------- files that can be written

  ghost predicate SnippetDeclaration(env: Env, node: Node) {
    && node.isSnippet && !node.isMacro && node.args == [] && !HasPrefix(node.name, "$(")
    && (node.block.Block? ==> WritableAll(env, node.block.nodes))
  }

  ghost predicate MacroDeclaration(node: Node) {
    && node.isMacro && !node.isSnippet && node.name != "" && !IsMacroRef(node.name) && node.block.NoBlock?
    && node.args != [] && PlainWords(node.args) && PlainArgs(node.args)
  }

  ghost predicate WritableItem(env: Env, node: Node) {
    Writable(env, node) || SnippetDeclaration(env, node) || MacroDeclaration(node)
  }

  /** Directives, and declarations of snippets and macros among them, in any order. */
  ghost predicate WritableFile(env: Env, nodes: seq<Node>) {
    nodes == [] || (WritableItem(env, nodes[0]) && WritableFile(env, nodes[1..]))
  }

  function Directives(nodes: seq<Node>): seq<Node> {
    if nodes == [] then []
    else (if nodes[0].isSnippet || nodes[0].isMacro then [] else [nodes[0]]) + Directives(nodes[1..])
  }

  function BodyOf(node: Node): seq<Node> {
    if node.block.NoBlock? then [] else node.block.nodes
  }

  /** The snippets declared, a later one in place of an earlier one of the same name. */
  function SnippetsOf(nodes: seq<Node>): Snippets {
    if nodes == [] then map[]
    else if Last(nodes).isSnippet then SnippetsOf(Front(nodes))[Last(nodes).name := BodyOf(Last(nodes))]
    else SnippetsOf(Front(nodes))
  }

  function MacrosOf(nodes: seq<Node>): Macros {
    if nodes == [] then map[]
    else if Last(nodes).isMacro then MacrosOf(Front(nodes))[Last(nodes).name := Last(nodes).args]
    else MacrosOf(Front(nodes))
  }

  // ---------------------------------------------------------------- what the tables hold

  ghost predicate LastSnippet(nodes: seq<Node>, i: nat, name: string) {
    && i < |nodes| && nodes[i].isSnippet && nodes[i].name == name
    && forall j :: i < j < |nodes| ==> !(nodes[j].isSnippet && nodes[j].name == name)
  }

  /** The snippet table has exactly the names declared, each with the body written last for it. */
  lemma {:induction false} SnippetsExactly(nodes: seq<Node>, name: string)
    ensures name in SnippetsOf(nodes) <==> exists i: nat :: LastSnippet(nodes, i, name)
    ensures forall i: nat :: LastSnippet(nodes, i, name) ==> name in SnippetsOf(nodes) && SnippetsOf(nodes)[name] == BodyOf(nodes[i])
  {
    if nodes != [] {
      var front, n := Front(nodes), |nodes| - 1;
      SnippetsExactly(front, name);
      assert forall j :: 0 <= j < n ==> front[j] == nodes[j];
      if nodes[n].isSnippet && nodes[n].name == name {
        assert LastSnippet(nodes, n, name);
      } else {
        forall i: nat ensures LastSnippet(nodes, i, name) <==> LastSnippet(front, i, name) {
          assert i < n && LastSnippet(front, i, name) ==> nodes[i] == front[i];
        }
      }
    }
  }

  ghost predicate LastMacro(nodes: seq<Node>, i: nat, name: string) {
    && i < |nodes| && nodes[i].isMacro && nodes[i].name == name
    && forall j :: i < j < |nodes| ==> !(nodes[j].isMacro && nodes[j].name == name)
  }

  /** The macro table likewise: the values written last. */
  lemma {:induction false} MacrosExactly(nodes: seq<Node>, name: string)
    ensures name in MacrosOf(nodes) <==> exists i: nat :: LastMacro(nodes, i, name)
    ensures forall i: nat :: LastMacro(nodes, i, name) ==> name in MacrosOf(nodes) && MacrosOf(nodes)[name] == nodes[i].args
  {
    if nodes != [] {
      var front, n := Front(nodes), |nodes| - 1;
      MacrosExactly(front, name);
      assert forall j :: 0 <= j < n ==> front[j] == nodes[j];
      if nodes[n].isMacro && nodes[n].name == name {
        assert LastMacro(nodes, n, name);
      } else {
        forall i: nat ensures LastMacro(nodes, i, name) <==> LastMacro(front, i, name) {
          assert i < n && LastMacro(front, i, name) ==> nodes[i] == front[i];
        }
      }
    }
  }

  // ---------------------------------------------------------------- reading a declaration back

  lemma {:induction false} SnippetFinished(env: Env, node: Node)
    requires SnippetDeclaration(env, node)
    ensures FinishNode(env, StartNode(Title(node)).(args := [], block := node.block)) == Ok(node)
  {
    SnippetStarted(node.name);
    var node' := StartNode(Title(node)).(args := [], block := node.block);
    assert node' == node && !IsMacroRef(node.name);
  }

  lemma {:induction false} SnippetStarted(name: string)
    ensures StartNode("(" + name + ")") == Node(name, [], NoBlock, true, false)
  {
    var title := "(" + name + ")";
    assert title[1..|title| - 1] == name && title[|title| - 1..] == ")" && title[0] == '(';
  }

  lemma {:induction false} MacroFinished(env: Env, node: Node)
    requires MacroDeclaration(node)
    ensures FinishNode(env, StartNode(Title(node)).(args := Words(node), block := NoBlock)) == Ok(node)
  {
    ParserMacros.ReferenceIsRef(node.name);
    assert Title(node)[0] == '$' && !HasPrefix(Title(node), "(");
    assert Words(node)[1..] == node.args;
  }

  lemma {:induction false} DeclarationWords(env: Env, node: Node)
    requires SnippetDeclaration(env, node) || MacroDeclaration(node)
    ensures PlainWords(Words(node)) && Title(node) != "{" && Title(node) != "}"
    ensures FinishNode(env, StartNode(Title(node)).(args := Words(node), block := node.block)) == Ok(node)
  {
    if node.isMacro {
      MacroFinished(env, node);
      assert Title(node)[1] == '(';
    } else {
      SnippetFinished(env, node);
      assert Title(node)[0] == '(';
    }
  }

  function Declared(st: State, node: Node): State {
    if node.isSnippet then st.(snippets := st.snippets[node.name := BodyOf(node)])
    else if node.isMacro then st.(macros := st.macros[node.name := node.args])
    else st
  }

  lemma {:induction false} DeclarationSettles(env: Env, st: State, node: Node)
    requires SnippetDeclaration(env, node) || MacroDeclaration(node)
    requires st.nesting == 0
    ensures Settle(st, node) == Ok(Settled(Declared(st, node), [], false))
  {
    if node.isMacro {
      PlainArgsUnexpanded(st.macros, node.args);
    }
  }

  lemma {:induction false} LinePassed(env: Env, st: State, acc: seq<Node>, newline: bool, kept: seq<Node>, end: State)
    requires LineOf(env, st, newline) == Some(Ok(Settled(end, kept, false)))
    ensures Leads(env, Turn(st, acc, newline), Turn(end, acc + kept, true))
  {
    assert LinesFrom(env, st, acc, newline) == LinesFrom(env, end, acc + kept, true);
  }

  lemma {:induction false} DeclarationNode(env: Env, st: State, node: Node, end: State)
    requires (SnippetDeclaration(env, node) || MacroDeclaration(node)) && 0 <= st.cursor < |env.tokens|
    requires TextAt(env.tokens, st.cursor) == Title(node) && Reads(env, st, [], Ok(ArgsRead(Words(node), node.block, end)))
    ensures NodeOf(env, st) == Some(Ok(NodeRead(node, end)))
  {
    DeclarationWords(env, node);
  }

  lemma {:induction false} DeclarationLine(env: Env, st: State, newline: bool, node: Node, end: State)
    requires (SnippetDeclaration(env, node) || MacroDeclaration(node)) && -1 <= st.cursor < |env.tokens| - 1
    requires newline ==> EndsLine(env, st.cursor)
    requires TextAt(env.tokens, st.cursor + 1) == Title(node) && NodeOf(env, Ahead(st, 1)) == Some(Ok(NodeRead(node, end))) && end.nesting == 0
    ensures LineOf(env, st, newline) == Some(Ok(Settled(Declared(end, node), [], false)))
  {
    DeclarationWords(env, node);
    DeclarationSettles(env, end, node);
    LineIsSettled(env, st, newline, node, end, Settled(Declared(end, node), [], false));
  }

  lemma {:induction false} ReadBackDeclaration(env: Env, st: State, node: Node, acc: seq<Node>, newline: bool) returns (next: State)
    requires (SnippetDeclaration(env, node) || MacroDeclaration(node)) && ShowsNode(env, st.cursor + 1, node)
    requires -1 <= st.cursor < |env.tokens| && (newline ==> EndsLine(env, st.cursor))
    requires st.nesting == 0 && NodeDepth(node) <= MAX_NESTING + 1
    ensures next == Declared(After(st, NodeSize(node), NodeBlocks(node)), node)
    ensures next.cursor < |env.tokens| && EndsLine(env, next.cursor)
    ensures Leads(env, Turn(st, acc, newline), Turn(next, acc + [], true))
  {
    DeclarationPlain(env, node);
    var end := ReadHeader(env, st, node);
    next := Declared(end, node);
    DeclarationPasses(env, st, acc, newline, node, end);
  }

  lemma {:induction false} ReadHeader(env: Env, st: State, node: Node) returns (end: State)
    requires PlainWords(Words(node)) && (node.block.Block? ==> WritableAll(env, node.block.nodes)) && ShowsNode(env, st.cursor + 1, node)
    requires st.nesting == 0 && NodeDepth(node) <= MAX_NESTING + 1
    ensures end == After(st, NodeSize(node), NodeBlocks(node)) && end.cursor < |env.tokens| && EndsLine(env, end.cursor)
    ensures 0 <= st.cursor + 1 < |env.tokens| && env.tokens[st.cursor + 1].text == Title(node)
    ensures Reads(env, Ahead(st, 1), [], Ok(ArgsRead(Words(node), node.block, end)))
  {
    ShownEnds(env, st.cursor + 1, node);
    end := ReadBackArgs(env, Ahead(st, 1), node);
  }

  lemma {:induction false} DeclarationPlain(env: Env, node: Node)
    requires SnippetDeclaration(env, node) || MacroDeclaration(node)
    ensures PlainWords(Words(node)) && (node.block.Block? ==> WritableAll(env, node.block.nodes))
  {
  }

  lemma {:induction false} DeclarationPasses(env: Env, st: State, acc: seq<Node>, newline: bool, node: Node, end: State)
    requires (SnippetDeclaration(env, node) || MacroDeclaration(node)) && -1 <= st.cursor < |env.tokens| - 1
    requires newline ==> EndsLine(env, st.cursor)
    requires env.tokens[st.cursor + 1].text == Title(node) && end.nesting == 0
    requires Reads(env, Ahead(st, 1), [], Ok(ArgsRead(Words(node), node.block, end)))
    ensures Leads(env, Turn(st, acc, newline), Turn(Declared(end, node), acc + [], true))
  {
    DeclarationNode(env, Ahead(st, 1), node, end);
    DeclarationLine(env, st, newline, node, end);
    LinePassed(env, st, acc, newline, [], Declared(end, node));
  }

  // ---------------------------------------------------------------- reading a file back

  /** The tables as a run of nodes leaves them. */
  function AllDeclared(st: State, nodes: seq<Node>): State
    decreases |nodes|
  {
    if nodes == [] then st else AllDeclared(Declared(st, nodes[0]), nodes[1..])
  }

  lemma {:induction false} DeclaredMoves(st: State, nodes: seq<Node>, tokens: nat, blocks: nat)
    ensures AllDeclared(After(st, tokens, blocks), nodes) == After(AllDeclared(st, nodes), tokens, blocks)
    decreases |nodes|
  {
    if nodes != [] {
      DeclaredMoves(Declared(st, nodes[0]), nodes[1..], tokens, blocks);
    }
  }

  /** The same tables, from the end. */
  lemma {:induction false} TablesFromEnd(st: State, nodes: seq<Node>)
    requires nodes != []
    ensures AllDeclared(st, nodes) == Declared(AllDeclared(st, Front(nodes)), Last(nodes))
    decreases |nodes|
  {
    if |nodes| > 1 {
      TablesFromEnd(Declared(st, nodes[0]), nodes[1..]);
      assert Front(nodes)[1..] == Front(nodes[1..]) && Front(nodes)[0] == nodes[0];
    } else {
      assert Front(nodes) == [] && nodes[1..] == [];
    }
  }

  lemma {:induction false} TablesDeclared(st: State, nodes: seq<Node>)
    requires st.snippets == map[] && st.macros == map[] && forall i :: 0 <= i < |nodes| ==> !(nodes[i].isSnippet && nodes[i].isMacro)
    ensures AllDeclared(st, nodes) == st.(snippets := SnippetsOf(nodes), macros := MacrosOf(nodes))
    decreases |nodes|
  {
    if nodes != [] {
      TablesDeclared(st, Front(nodes));
      TablesFromEnd(st, nodes);
    }
  }

  lemma {:induction false} ReadBackItem(env: Env, st: State, node: Node, acc: seq<Node>, newline: bool) returns (next: State)
    requires WritableItem(env, node) && ShowsNode(env, st.cursor + 1, node)
    requires -1 <= st.cursor < |env.tokens| && (newline ==> EndsLine(env, st.cursor))
    requires st.nesting == 0 && NodeDepth(node) <= MAX_NESTING + 1
    ensures next == Declared(After(st, NodeSize(node), NodeBlocks(node)), node)
    ensures next.cursor < |env.tokens| && EndsLine(env, next.cursor)
    ensures Leads(env, Turn(st, acc, newline), Turn(next, acc + (if node.isSnippet || node.isMacro then [] else [node]), true))
  {
    if Writable(env, node) {
      next := ReadBackFirst(env, st, node, acc, newline);
    } else {
      next := ReadBackDeclaration(env, st, node, acc, newline);
    }
  }

  lemma {:induction false} ReadBackFile(env: Env, st: State, nodes: seq<Node>, acc: seq<Node>, newline: bool) returns (end: State, after: bool)
    requires WritableFile(env, nodes) && ShowsNodes(env, st.cursor + 1, nodes)
    requires -1 <= st.cursor < |env.tokens| && (newline ==> EndsLine(env, st.cursor))
    requires st.nesting == 0 && Depth(nodes) <= MAX_NESTING + 1
    ensures end == AllDeclared(After(st, NodesSize(nodes), BlockCount(nodes)), nodes)
    ensures Leads(env, Turn(st, acc, newline), Turn(end, acc + Directives(nodes), after))
    decreases |nodes|
  {
    if nodes == [] {
      end, after := st, newline;
      assert acc + Directives(nodes) == acc;
    } else {
      var node, rest := nodes[0], nodes[1..];
      DepthSplit(nodes);
      var next := ReadBackItem(env, st, node, acc, newline);
      var kept := if node.isSnippet || node.isMacro then [] else [node];
      end, after := ReadBackFile(env, next, rest, acc + kept, true);
      ConcatAssoc(acc, kept, Directives(rest));
      LeadsOn(env, Turn(st, acc, newline), Turn(next, acc + kept, true), Turn(end, acc + Directives(nodes), after));
      StateMoves(st, nodes, next);
    }
  }

  lemma {:induction false} StateMoves(st: State, nodes: seq<Node>, next: State)
    requires nodes != [] && next == Declared(After(st, NodeSize(nodes[0]), NodeBlocks(nodes[0])), nodes[0])
    ensures AllDeclared(After(next, NodesSize(nodes[1..]), BlockCount(nodes[1..])), nodes[1..])
         == AllDeclared(After(st, NodesSize(nodes), BlockCount(nodes)), nodes)
  {
    var n, m := NodesSize(nodes[1..]), BlockCount(nodes[1..]);
    assert After(After(st, NodeSize(nodes[0]), NodeBlocks(nodes[0])), n, m) == After(st, NodesSize(nodes), BlockCount(nodes));
    assert After(next, n, m) == Declared(After(st, NodesSize(nodes), BlockCount(nodes)), nodes[0]);
  }

  /** Round trip of whole files: directives and declarations in any order, blocks at most 256 deep. The
      directives come back, and the tables hold exactly what the file declares. */
  lemma {:induction false} DeclaredRoundTrip(env: Env, nodes: seq<Node>)
    requires WritableFile(env, nodes) && Depth(nodes) <= MAX_NESTING + 1 && LaidOut(env.tokens, NodesPieces(nodes))
    ensures TreeOf(env) == Ok(NodesRead(Directives(nodes), State(|env.tokens| - 1, 0, BlockCount(nodes), SnippetsOf(nodes), MacrosOf(nodes))))
  {
    var ps := NodesPieces(nodes);
    assert ps[0..0 + |ps|] == ps;
    NodesShown(env, ps, 0, nodes);
    var root := INITIAL.(nesting := 0);
    var end, after := ReadBackFile(env, root, nodes, [], false);
    assert [] + Directives(nodes) == Directives(nodes);
    ItemsApart(env, nodes);
    TablesDeclared(After(root, NodesSize(nodes), BlockCount(nodes)), nodes);
    FileEnds(env, end, Directives(nodes), after);
    assert Yields(env, Turn(root, [], false), Ok(NodesRead(Directives(nodes), end)));
    OpenBlock(env, INITIAL, Ok(NodesRead(Directives(nodes), end)));
  }

  lemma {:induction false} ItemsApart(env: Env, nodes: seq<Node>)
    requires WritableFile(env, nodes)
    ensures forall i :: 0 <= i < |nodes| ==> !(nodes[i].isSnippet && nodes[i].isMacro)
    decreases |nodes|
  {
    if nodes != [] {
      ItemsApart(env, nodes[1..]);
      assert forall i :: 0 < i < |nodes| ==> nodes[i] == nodes[1..][i - 1];
    }
  }

  /** The same from the text, if no text in it ends in, or holds before a quote, an odd run of backslashes. */
  lemma {:induction false} DeclaredFileRoundTrip(env: Env, nodes: seq<Node>)
    requires WritableFile(env, nodes) && Depth(nodes) <= MAX_NESTING + 1 && AllEven(NodesPieces(nodes))
    requires env.tokens == Lex(Write(nodes))
    ensures TreeOf(env).Ok? && TreeOf(env).value.nodes == Directives(nodes)
    ensures TreeOf(env).value.st.snippets == SnippetsOf(nodes) && TreeOf(env).value.st.macros == MacrosOf(nodes)
  {
    BlankLayout(nodes);
    QuoteRoundTrip(NodesPieces(nodes));
    PieceTokensLaidOut(NodesPieces(nodes), 1);
    DeclaredRoundTrip(env, nodes);
  }

  // ---------------------------------------------------------------- other ways to lay out a directive

  /** From token `c` on stand these lines, each but the last joined to the next by a backslash. */
  ghost predicate ShowsJoined(env: Env, c: int, lines: seq<seq<string>>)
    decreases |lines|
  {
    && lines != [] && lines[0] != []
    && if |lines| == 1 then ShowsLine(env, c, lines[0])
       else ShowsLine(env, c, lines[0] + ["\\"]) && ShowsJoined(env, c + |lines[0]| + 1, lines[1..])
  }

  function Flat(lines: seq<seq<string>>): seq<string> {
    if lines == [] then [] else lines[0] + Flat(lines[1..])
  }

  lemma {:induction false} LineDone(env: Env, st: State, args: seq<string>)
    requires 0 <= st.cursor < |env.tokens| && EndsLine(env, st.cursor) && (args != [] ==> Last(args) != "\\")
    ensures Reads(env, st, args, Ok(ArgsRead(args, NoBlock, st)))
  {
    assert ArgsFrom(env, st, args, NoBlock, false) == JoinLines(env, st, args, NoBlock);
  }

  lemma {:induction false} JoinLine(env: Env, st: State, args: seq<string>, word: string)
    requires 0 <= st.cursor < |env.tokens| - 1 && EndsLine(env, st.cursor) && env.tokens[st.cursor + 1].text == word != "{"
    ensures Gathers(env, st, args + ["\\"], Ahead(st, 1), args + [word])
  {
    assert Front(args + ["\\"]) == args;
    assert ArgsFrom(env, st, args + ["\\"], NoBlock, false) == ArgsFrom(env, st, args, NoBlock, true);
    assert ArgsFrom(env, st, args, NoBlock, true) == TakeWord(env, Ahead(st, 1), args, NoBlock);
    assert TakeWord(env, Ahead(st, 1), args, NoBlock) == ArgsFrom(env, Ahead(st, 1), args + [word], NoBlock, false);
  }

  ghost predicate NoBrace(words: seq<string>) {
    forall k :: 0 <= k < |words| ==> words[k] != "{"
  }

  /** The words of one line after its first. */
  lemma {:induction false} CollectLine(env: Env, st: State, acc: seq<string>, words: seq<string>)
    requires ShowsLine(env, st.cursor, words) && NoBrace(words)
    ensures Gathers(env, st, acc, Ahead(st, |words| - 1), acc + words[1..])
  {
    CollectArgs(env, st, acc, words, 0, |words| - 1);
    assert acc + words[1..1] == acc && words[1..|words|] == words[1..];
    assert Ahead(st, 0) == st;
  }

  ghost predicate NoBraces(lines: seq<seq<string>>) {
    lines == [] || (NoBrace(lines[0]) && NoBraces(lines[1..]))
  }

  lemma {:induction false} ReadLastLine(env: Env, st: State, acc: seq<string>, line: seq<string>)
    requires ShowsLine(env, st.cursor, line) && NoBrace(line) && (acc == [] || Last(acc) == line[0]) && Last(line) != "\\"
    ensures Reads(env, st, acc, Ok(ArgsRead(acc + line[1..], NoBlock, Ahead(st, |line| - 1))))
  {
    var end := Ahead(st, |line| - 1);
    CollectLine(env, st, acc, line);
    LineDone(env, end, acc + line[1..]);
    ReadsFrom(env, st, acc, end, acc + line[1..], Ok(ArgsRead(acc + line[1..], NoBlock, end)));
  }

  function JoinedEnd(st: State, lines: seq<seq<string>>): State
    requires |Flat(lines)| + |lines| >= 2
  {
    Ahead(st, |Flat(lines)| + |lines| - 2)
  }

  /** Words of joined lines are all kept; only the backslashes that join are not. */
  lemma {:induction false} ReadJoined(env: Env, st: State, acc: seq<string>, lines: seq<seq<string>>)
    requires ShowsJoined(env, st.cursor, lines) && NoBraces(lines) && (acc == [] || Last(acc) == lines[0][0])
    requires Last(lines) != [] && Last(Last(lines)) != "\\"
    ensures Flat(lines) != [] && Reads(env, st, acc, Ok(ArgsRead(acc + Flat(lines)[1..], NoBlock, JoinedEnd(st, lines))))
    decreases |lines|
  {
    var line, rest := lines[0], lines[1..];
    if |lines| == 1 {
      assert Flat(lines) == line + [] == line;
      ReadLastLine(env, st, acc, line);
    } else {
      var next, some := Ahead(st, |line| + 1), acc + line[1..] + [rest[0][0]];
      NextLineJoins(env, st, acc, lines);
      ReadJoined(env, next, some, rest);
      JoinedWords(acc, line, Flat(rest), rest[0][0]);
      assert JoinedEnd(next, rest) == JoinedEnd(st, lines);
      ReadsFrom(env, st, acc, next, some, Ok(ArgsRead(acc + Flat(lines)[1..], NoBlock, JoinedEnd(st, lines))));
    }
  }

  lemma {:induction false} NextLineJoins(env: Env, st: State, acc: seq<string>, lines: seq<seq<string>>)
    requires ShowsJoined(env, st.cursor, lines) && NoBraces(lines) && |lines| > 1
    ensures var rest, next := lines[1..], Ahead(st, |lines[0]| + 1);
            && ShowsJoined(env, next.cursor, rest) && NoBraces(rest) && rest[0] != [] && Flat(rest) != [] && Flat(rest)[0] == rest[0][0]
            && Gathers(env, st, acc, next, acc + lines[0][1..] + [rest[0][0]])
  {
    var line, rest := lines[0], lines[1..];
    NextLineStarts(env, st.cursor + |line| + 1, rest);
    CollectJoined(env, st, acc, line, rest[0][0]);
  }

  /** A line that a backslash joins to one that begins with `word`. */
  lemma {:induction false} CollectJoined(env: Env, st: State, acc: seq<string>, line: seq<string>, word: string)
    requires line != [] && ShowsLine(env, st.cursor, line + ["\\"]) && NoBrace(line)
    requires st.cursor + |line| + 1 < |env.tokens| && env.tokens[st.cursor + |line| + 1].text == word != "{"
    ensures Gathers(env, st, acc, Ahead(st, |line| + 1), acc + line[1..] + [word])
  {
    var some := acc + line[1..];
    assert (line + ["\\"])[1..] == line[1..] + ["\\"];
    ConcatAssoc(acc, line[1..], ["\\"]);
    CollectLine(env, st, acc, line + ["\\"]);
    JoinLine(env, Ahead(st, |line|), some, word);
    GathersOn(env, st, acc, Ahead(st, |line|), some + ["\\"], Ahead(st, |line| + 1), some + [word]);
  }

  lemma {:induction false} NextLineStarts(env: Env, c: int, lines: seq<seq<string>>)
    requires ShowsJoined(env, c, lines)
    ensures 0 <= c < |env.tokens| && env.tokens[c].text == lines[0][0] && Flat(lines) != [] && Flat(lines)[0] == lines[0][0]
  {
    if |lines| == 1 {
      assert WordAt(env, c, lines[0], 0);
    } else {
      assert WordAt(env, c, lines[0] + ["\\"], 0);
    }
  }

  lemma {:induction false} JoinedWords(acc: seq<string>, line: seq<string>, rest: seq<string>, word: string)
    requires line != [] && rest != [] && rest[0] == word
    ensures acc + line[1..] + [word] + rest[1..] == acc + (line + rest)[1..]
  {
    assert rest == [word] + rest[1..];
    assert (line + rest)[1..] == line[1..] + rest;
  }

  /** A directive whose words are spread over joined lines is read as if they stood on one. */
  lemma {:induction false} JoinedDirective(env: Env, st: State, node: Node, lines: seq<seq<string>>)
    requires Writable(env, node) && node.block.NoBlock? && Flat(lines) == HeaderWords(node)
    requires ShowsJoined(env, st.cursor, lines) && NoBraces(lines) && Last(lines) != [] && Last(Last(lines)) != "\\"
    ensures NodeOf(env, st) == Some(Ok(NodeRead(node, Ahead(st, |HeaderWords(node)| + |lines| - 2))))
  {
    ReadJoined(env, st, [], lines);
    NextLineStarts(env, st.cursor, lines);
    assert [] + HeaderWords(node)[1..] == node.args;
    NameIsWord(env, node.name);
  }

  lemma {:induction false} DirectiveAndBrace(env: Env, st: State, node: Node)
    requires Writable(env, node) && node.block.NoBlock? && ShowsLine(env, st.cursor, HeaderWords(node) + ["}"])
    ensures st.cursor + |HeaderWords(node)| < |env.tokens| && TextAt(env.tokens, st.cursor) != "}"
    ensures NodeOf(env, st) == Some(Ok(NodeRead(node.(args := node.args + ["}"]), Ahead(st, |HeaderWords(node)|))))
  {
    var words := HeaderWords(node) + ["}"];
    assert words[0] == node.name && words[1..] == node.args + ["}"];
    assert WordAt(env, st.cursor, words, 0);
    CollectLine(env, st, [], words);
    var last := Ahead(st, |words| - 1);
    assert [] + words[1..] == node.args + ["}"];
    LineDone(env, last, node.args + ["}"]);
    assert Reads(env, st, [], Ok(ArgsRead(node.args + ["}"], NoBlock, last)));
    NameIsWord(env, node.name);
  }

  /** A directive on the line of the closing brace is kept, and the brace closes the block. */
  lemma {:induction false} ClosedOnTheLine(env: Env, st: State, newline: bool, node: Node)
    requires Writable(env, node) && node.block.NoBlock? && -1 <= st.cursor && 0 < st.nesting && (newline ==> EndsLine(env, st.cursor))
    requires ShowsLine(env, st.cursor + 1, HeaderWords(node) + ["}"])
    ensures LineOf(env, st, newline) == Some(Ok(Settled(After(st.(nesting := st.nesting - 1), |HeaderWords(node)| + 1, 1), [node], true)))
  {
    var size := |HeaderWords(node)|;
    var last := Ahead(st, size + 1);
    DirectiveAndBrace(env, Ahead(st, 1), node);
    BraceSettles(env, last, node);
    assert After(last.(nesting := st.nesting - 1), 0, 1) == After(st.(nesting := st.nesting - 1), size + 1, 1);
    LineIsSettled(env, st, newline, node.(args := node.args + ["}"]), last, Settled(After(st.(nesting := st.nesting - 1), size + 1, 1), [node], true));
  }

  function LineOf(env: Env, st: State, newline: bool): Option<Result<Settled, ParseError>> {
    if -1 <= st.cursor < |env.tokens| then Some(LineFrom(env, st, newline)) else None
  }

  function NodeOf(env: Env, st: State): Option<Result<NodeRead, ParseError>> {
    if 0 <= st.cursor < |env.tokens| then Some(NodeFrom(env, st)) else None
  }

  lemma {:induction false} LineIsSettled(env: Env, st: State, newline: bool, read: Node, last: State, settled: Settled)
    requires -1 <= st.cursor < |env.tokens| - 1 && (newline ==> EndsLine(env, st.cursor)) && TextAt(env.tokens, st.cursor + 1) != "}"
    requires NodeOf(env, Ahead(st, 1)) == Some(Ok(NodeRead(read, last))) && Settle(last, read) == Ok(settled)
    ensures LineOf(env, st, newline) == Some(Ok(settled))
  {
  }

  lemma {:induction false} BraceSettles(env: Env, st: State, node: Node)
    requires Writable(env, node) && 0 < st.nesting
    ensures Settle(st, node.(args := node.args + ["}"])) == Ok(Settled(After(st.(nesting := st.nesting - 1), 0, 1), [node], true))
  {
    assert Front(node.args + ["}"]) == node.args && Last(node.args + ["}"]) == "}";
    WritableUnexpanded(env, st.macros, node);
  }
}
