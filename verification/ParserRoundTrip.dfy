/** Writing a tree out, one directive a line, and reading it back gives the same tree. */
module ParserRoundTrip {
  import opened Common
  import opened Lexer
  import opened Dispenser
  import opened Parser

  // ---------------------------------------------------------------- trees that can be written

  /** Not touched by macro expansion. */
  predicate PlainArg(arg: string) {
    !IsMacroRef(arg) && !HoldsMacroRef(arg)
  }

  /** Read as arguments: nothing opens a block, and the last word neither closes one nor joins a line. */
  ghost predicate PlainWords(args: seq<string>) {
    && (forall i :: 0 <= i < |args| ==> args[i] != "{")
    && (args != [] ==> Last(args) != "}" && Last(args) != "\\")
  }

  ghost predicate PlainArgs(args: seq<string>) {
    forall i :: 0 <= i < |args| ==> PlainArg(args[i])
  }

  ghost predicate Writable(env: Env, node: Node) {
    && ValidName(env, node.name)
    && !node.isSnippet && !node.isMacro
    && PlainWords(node.args) && PlainArgs(node.args)
    && (node.block.Block? ==> WritableAll(env, node.block.nodes))
  }

  ghost predicate WritableAll(env: Env, nodes: seq<Node>) {
    nodes == [] || (Writable(env, nodes[0]) && WritableAll(env, nodes[1..]))
  }

  /** How deep blocks nest in this node, its own block included. */
  function NodeDepth(node: Node): nat {
    if node.block.NoBlock? then 0 else 1 + Depth(node.block.nodes)
  }

  function Depth(nodes: seq<Node>): nat {
    if nodes == [] then 0
    else
      var here, rest := NodeDepth(nodes[0]), Depth(nodes[1..]);
      if here > rest then here else rest
  }

  function NodeBlocks(node: Node): nat {
    if node.block.NoBlock? then 0 else 1 + BlockCount(node.block.nodes)
  }

  function BlockCount(nodes: seq<Node>): nat {
    if nodes == [] then 0 else NodeBlocks(nodes[0]) + BlockCount(nodes[1..])
  }

  // ---------------------------------------------------------------- layout

  function Line(words: seq<string>): seq<Piece> {
    seq(|words|, k requires 0 <= k < |words| => Piece(words[k], if k == |words| - 1 then "\n" else " "))
  }

  /** The first word of a directive, or of the declaration of a snippet or a macro. */
  function Title(node: Node): string {
    if node.isSnippet then "(" + node.name + ")" else if node.isMacro then Reference(node.name) else node.name
  }

  /** The words after it, up to the brace. */
  function Words(node: Node): seq<string> {
    if node.isMacro then ["="] + node.args else node.args
  }

  function HeaderWords(node: Node): seq<string> {
    [Title(node)] + Words(node) + if node.block.NoBlock? then [] else ["{"]
  }

  function NodePieces(node: Node): seq<Piece> {
    match node.block
    case NoBlock => Line(HeaderWords(node))
    case Block(nodes) => Line(HeaderWords(node)) + (NodesPieces(nodes) + Line(["}"]))
  }

  function NodesPieces(nodes: seq<Node>): seq<Piece> {
    if nodes == [] then [] else NodePieces(nodes[0]) + NodesPieces(nodes[1..])
  }

  /** The text of a configuration file holding these nodes. */
  function Write(nodes: seq<Node>): string {
    Render(NodesPieces(nodes))
  }

  // ---------------------------------------------------------------- tokens laid out as pieces

  ghost predicate LaidOut(tokens: seq<Token>, ps: seq<Piece>) {
    |tokens| == |ps| && forall k :: 0 <= k < |ps| ==> PieceAt(tokens, ps, k)
  }

  predicate PieceAt(tokens: seq<Token>, ps: seq<Piece>, k: nat)
    requires k < |ps| == |tokens|
  {
    && tokens[k].file == "" && tokens[k].text == ps[k].text
    && (k < |ps| - 1 ==> tokens[k + 1].line == tokens[k].line + Breaks(ps[k].text) + Breaks(ps[k].gap))
  }

  lemma {:induction false} PieceTokensLaidOut(ps: seq<Piece>, line: nat)
    ensures LaidOut(PieceTokens(ps, line), ps)
    ensures ps != [] ==> PieceTokens(ps, line)[0].line == line
    decreases |ps|
  {
    if ps != [] {
      var next := line + Breaks(ps[0].text) + Breaks(ps[0].gap);
      PieceTokensLaidOut(ps[1..], next);
      var tail := PieceTokens(ps[1..], next);
      var all := PieceTokens(ps, line);
      assert all == [Token("", line, ps[0].text)] + tail;
      forall k | 0 <= k < |ps| ensures PieceAt(all, ps, k) {
        if k > 0 {
          assert PieceAt(tail, ps[1..], k - 1);
          assert all[k] == tail[k - 1] && ps[k] == ps[1..][k - 1];
        }
      }
    }
  }

  /** `part` stands at position `c` of the layout. */
  ghost predicate At(ps: seq<Piece>, c: int, part: seq<Piece>) {
    0 <= c && c + |part| <= |ps| && ps[c..c + |part|] == part
  }

  lemma {:induction false} AtSplit(ps: seq<Piece>, c: int, a: seq<Piece>, b: seq<Piece>)
    requires At(ps, c, a + b)
    ensures At(ps, c, a) && At(ps, c + |a|, b)
  {
    assert ps[c..c + |a|] == ps[c..c + |a + b|][..|a|];
    assert ps[c + |a|..c + |a| + |b|] == ps[c..c + |a + b|][|a|..];
  }

  // ---------------------------------------------------------------- tokens that show a tree

  /** From token `c` on stands one line, made of exactly these words. */
  ghost predicate ShowsLine(env: Env, c: int, words: seq<string>) {
    && 0 <= c && words != [] && c + |words| <= |env.tokens|
    && (forall k :: 0 <= k < |words| ==> WordAt(env, c, words, k))
    && EndsLine(env, c + |words| - 1)
  }

  ghost predicate WordAt(env: Env, c: nat, words: seq<string>, k: nat)
    requires k < |words| && c + |words| <= |env.tokens|
  {
    env.tokens[c + k].text == words[k] && (k < |words| - 1 ==> SameLine(env.tokens, c + k))
  }

  ghost predicate EndsLine(env: Env, c: int) {
    0 <= c && (c < |env.tokens| - 1 ==> !SameLine(env.tokens, c) && LaterLine(env.tokens, c))
  }

  function NodeSize(node: Node): nat {
    |HeaderWords(node)| + if node.block.NoBlock? then 0 else NodesSize(node.block.nodes) + 1
  }

  function NodesSize(nodes: seq<Node>): nat {
    if nodes == [] then 0 else NodeSize(nodes[0]) + NodesSize(nodes[1..])
  }

  ghost predicate ShowsNode(env: Env, c: int, node: Node)
    decreases node, 1
  {
    && ShowsLine(env, c, HeaderWords(node))
    && (node.block.Block? ==> ShowsBlock(env, c + |HeaderWords(node)|, node.block.nodes))
  }

  ghost predicate ShowsBlock(env: Env, c: int, nodes: seq<Node>)
    decreases nodes, 1
  {
    ShowsNodes(env, c, nodes) && ShowsLine(env, c + NodesSize(nodes), ["}"])
  }

  ghost predicate ShowsNodes(env: Env, c: int, nodes: seq<Node>)
    decreases nodes, 0
  {
    nodes == [] || (ShowsNode(env, c, nodes[0]) && ShowsNodes(env, c + NodeSize(nodes[0]), nodes[1..]))
  }

  lemma {:induction false} BreaksOfGaps()
    ensures Breaks("\n") == 1 && Breaks(" ") == 0
  {
    assert "\n"[1..] == "" && " "[1..] == "";
  }

  lemma {:induction false} LineShown(env: Env, ps: seq<Piece>, c: int, words: seq<string>)
    requires LaidOut(env.tokens, ps) && words != [] && At(ps, c, Line(words))
    ensures ShowsLine(env, c, words)
  {
    BreaksOfGaps();
    var line := Line(words);
    forall k | 0 <= k < |words| ensures WordAt(env, c, words, k) {
      assert ps[c + k] == ps[c..c + |line|][k] == line[k];
      assert PieceAt(env.tokens, ps, c + k);
      assert k < |words| - 1 ==> PieceAt(env.tokens, ps, c + k + 1);
    }
    var last := c + |words| - 1;
    assert ps[last] == ps[c..c + |line|][|words| - 1] == line[|words| - 1];
    assert PieceAt(env.tokens, ps, last);
    assert last < |ps| - 1 ==> PieceAt(env.tokens, ps, last + 1);
  }

  lemma {:induction false} NodeShown(env: Env, ps: seq<Piece>, c: int, node: Node)
    requires LaidOut(env.tokens, ps) && At(ps, c, NodePieces(node))
    ensures ShowsNode(env, c, node) && NodeSize(node) == |NodePieces(node)|
    decreases node, 1
  {
    match node.block
    case NoBlock =>
      LineShown(env, ps, c, HeaderWords(node));
    case Block(nodes) =>
      var head := Line(HeaderWords(node));
      AtSplit(ps, c, head, NodesPieces(nodes) + Line(["}"]));
      LineShown(env, ps, c, HeaderWords(node));
      BlockShown(env, ps, c + |head|, nodes);
  }

  lemma {:induction false} BlockShown(env: Env, ps: seq<Piece>, c: int, nodes: seq<Node>)
    requires LaidOut(env.tokens, ps) && At(ps, c, NodesPieces(nodes) + Line(["}"]))
    ensures ShowsBlock(env, c, nodes) && NodesSize(nodes) == |NodesPieces(nodes)|
    decreases nodes, 1
  {
    AtSplit(ps, c, NodesPieces(nodes), Line(["}"]));
    NodesShown(env, ps, c, nodes);
    LineShown(env, ps, c + |NodesPieces(nodes)|, ["}"]);
  }

  lemma {:induction false} NodesShown(env: Env, ps: seq<Piece>, c: int, nodes: seq<Node>)
    requires LaidOut(env.tokens, ps) && At(ps, c, NodesPieces(nodes))
    ensures ShowsNodes(env, c, nodes) && NodesSize(nodes) == |NodesPieces(nodes)|
    decreases nodes, 0
  {
    if nodes != [] {
      AtSplit(ps, c, NodePieces(nodes[0]), NodesPieces(nodes[1..]));
      NodeShown(env, ps, c, nodes[0]);
      NodesShown(env, ps, c + |NodePieces(nodes[0])|, nodes[1..]);
    }
  }

  // ---------------------------------------------------------------- reading back

  lemma {:induction false} PlainArgsUnexpanded(macros: Macros, args: seq<string>)
    requires PlainArgs(args)
    ensures ExpandArgs(macros, args) == Ok(args)
  {
    if args != [] {
      PlainArgsUnexpanded(macros, args[1..]);
      assert args == [args[0]] + args[1..];
    }
  }

  lemma {:induction false} NameIsWord(env: Env, name: string)
    requires ValidName(env, name)
    ensures name != "{" && name != "}" && !HasPrefix(name, "$(") && !HasPrefix(name, "(")
  {
    assert name[0] != '{' && name[0] != '}' && name[0] != '$' && name[0] != '(';
  }

  lemma {:induction false} WritableUnexpanded(env: Env, macros: Macros, node: Node)
    requires Writable(env, node)
    ensures ExpandMacros(macros, node) == Ok(node)
    decreases node, 1
  {
    NameIsWord(env, node.name);
    PlainArgsUnexpanded(macros, node.args);
    if node.block.Block? {
      WritableAllUnexpanded(env, macros, node.block.nodes);
    }
  }

  lemma {:induction false} WritableAllUnexpanded(env: Env, macros: Macros, nodes: seq<Node>)
    requires WritableAll(env, nodes)
    ensures ExpandMacrosAll(macros, nodes) == Ok(nodes)
    decreases nodes, 0
  {
    if nodes != [] {
      WritableUnexpanded(env, macros, nodes[0]);
      WritableAllUnexpanded(env, macros, nodes[1..]);
      assert nodes == [nodes[0]] + nodes[1..];
    }
  }

  function ArgsOf(env: Env, st: State, args: seq<string>): Option<Result<ArgsRead, ParseError>> {
    if 0 <= st.cursor < |env.tokens| then Some(ArgsFrom(env, st, args, NoBlock, false)) else None
  }

  ghost predicate Reads(env: Env, st: State, args: seq<string>, r: Result<ArgsRead, ParseError>) {
    ArgsOf(env, st, args) == Some(r)
  }

  /** From the first state, with these arguments, the loop over words gets to the second. */
  ghost predicate Gathers(env: Env, st: State, args: seq<string>, next: State, more: seq<string>) {
    forall r :: Reads(env, next, more, r) ==> Reads(env, st, args, r)
  }

  lemma {:induction false} GathersOn(env: Env, st: State, args: seq<string>, mid: State, some: seq<string>, end: State, all: seq<string>)
    requires Gathers(env, st, args, mid, some) && Gathers(env, mid, some, end, all)
    ensures Gathers(env, st, args, end, all)
  {
    forall r | Reads(env, end, all, r) ensures Reads(env, st, args, r) {
      assert Reads(env, mid, some, r);
    }
  }

  function Ahead(st: State, k: nat): State {
    st.(cursor := st.cursor + k)
  }

  lemma {:induction false} CollectArg(env: Env, st: State, args: seq<string>, word: string)
    requires 0 <= st.cursor < |env.tokens| - 1 && SameLine(env.tokens, st.cursor)
    requires env.tokens[st.cursor + 1].text == word != "{"
    ensures Gathers(env, st, args, Ahead(st, 1), args + [word])
  {
    assert ArgsFrom(env, st, args, NoBlock, false) == TakeWord(env, Ahead(st, 1), args, NoBlock);
    assert TakeWord(env, Ahead(st, 1), args, NoBlock) == ArgsFrom(env, Ahead(st, 1), args + [word], NoBlock, false);
  }

  /** All words of a line are collected, after those gathered before, before anything else happens. */
  lemma {:induction false} CollectArgs(env: Env, st: State, acc: seq<string>, words: seq<string>, k: nat, m: nat)
    requires ShowsLine(env, st.cursor, words)
    requires k <= m < |words| && forall i :: k < i <= m ==> words[i] != "{"
    ensures Gathers(env, Ahead(st, k), acc + words[1..k + 1], Ahead(st, m), acc + words[1..m + 1])
    decreases m - k
  {
    if k < m {
      var some, more := acc + words[1..k + 1], acc + words[1..k + 2];
      assert some + [words[k + 1]] == more;
      assert WordAt(env, st.cursor, words, k) && WordAt(env, st.cursor, words, k + 1);
      CollectArg(env, Ahead(st, k), some, words[k + 1]);
      CollectArgs(env, st, acc, words, k + 1, m);
      GathersOn(env, Ahead(st, k), some, Ahead(st, k + 1), more, Ahead(st, m), acc + words[1..m + 1]);
    }
  }

  /** The state after reading shown nodes from `st`. */
  function After(st: State, tokens: nat, blocks: nat): State {
    st.(cursor := st.cursor + tokens, closed := st.closed + blocks)
  }

  lemma {:induction false} CollectHeader(env: Env, st: State, node: Node)
    requires ShowsLine(env, st.cursor, HeaderWords(node)) && PlainWords(Words(node))
    ensures Gathers(env, st, [], Ahead(st, |Words(node)|), Words(node))
  {
    var words, n := HeaderWords(node), |Words(node)|;
    HeaderParts(node);
    CollectArgs(env, st, [], words, 0, n);
    assert [] + words[1..n + 1] == Words(node) && [] + words[1..1] == [];
    assert Ahead(st, 0) == st;
  }

  lemma {:induction false} HeaderParts(node: Node)
    ensures var words, n := HeaderWords(node), |Words(node)|;
            && n < |words| && words[1..n + 1] == Words(node)
            && (PlainWords(Words(node)) ==> forall i :: 0 < i <= n ==> words[i] != "{")
  {
    var words, n := HeaderWords(node), |Words(node)|;
    forall i | 0 < i <= n ensures words[i] == Words(node)[i - 1] {
    }
  }

  lemma {:induction false} ReadsFrom(env: Env, st: State, args: seq<string>, next: State, more: seq<string>, r: Result<ArgsRead, ParseError>)
    requires Gathers(env, st, args, next, more) && Reads(env, next, more, r)
    ensures Reads(env, st, args, r)
  {
  }

  lemma {:induction false} HeaderSize(node: Node)
    ensures |HeaderWords(node)| == |Words(node)| + if node.block.NoBlock? then 1 else 2
    ensures NodeSize(node) == |HeaderWords(node)| + if node.block.NoBlock? then 0 else NodesSize(node.block.nodes) + 1
  {
  }

  lemma {:induction false} ReadBackArgs(env: Env, st: State, node: Node) returns (end: State)
    requires PlainWords(Words(node)) && (node.block.Block? ==> WritableAll(env, node.block.nodes))
    requires ShowsNode(env, st.cursor, node)
    requires 0 <= st.nesting && st.nesting + NodeDepth(node) <= MAX_NESTING + 1
    ensures end == After(st, NodeSize(node) - 1, NodeBlocks(node))
    ensures Reads(env, st, [], Ok(ArgsRead(Words(node), node.block, end)))
    decreases node, 1
  {
    ShownParts(env, st.cursor, node);
    if node.block.NoBlock? {
      end := After(st, NodeSize(node) - 1, NodeBlocks(node));
      assert end == Ahead(st, |Words(node)|);
      ReadBackPlain(env, st, node);
    } else {
      end := ReadBackBraced(env, st, node, node.block.nodes);
    }
  }

  /** A shown node, taken apart. */
  lemma {:induction false} ShownParts(env: Env, c: int, node: Node)
    requires ShowsNode(env, c, node)
    ensures ShowsLine(env, c, HeaderWords(node))
    ensures match node.block
            case NoBlock => NodeSize(node) == |Words(node)| + 1 && NodeBlocks(node) == 0 && NodeDepth(node) == 0
            case Block(nodes) =>
              && ShowsBlock(env, c + |Words(node)| + 2, nodes) && NodeSize(node) == |Words(node)| + 3 + NodesSize(nodes)
              && NodeBlocks(node) == 1 + BlockCount(nodes) && NodeDepth(node) == 1 + Depth(nodes)
  {
    HeaderSize(node);
  }

  lemma {:induction false} ReadBackPlain(env: Env, st: State, node: Node)
    requires PlainWords(Words(node)) && node.block.NoBlock? && ShowsLine(env, st.cursor, HeaderWords(node))
    ensures Reads(env, st, [], Ok(ArgsRead(Words(node), NoBlock, Ahead(st, |Words(node)|))))
  {
    var last := Ahead(st, |Words(node)|);
    HeaderSize(node);
    CollectHeader(env, st, node);
    LineEnds(env, last, Words(node));
    ReadsFrom(env, st, [], last, Words(node), Ok(ArgsRead(Words(node), NoBlock, last)));
  }

  lemma {:induction false} ReadBackBraced(env: Env, st: State, node: Node, nodes: seq<Node>) returns (end: State)
    requires PlainWords(Words(node)) && node.block == Block(nodes) && ShowsLine(env, st.cursor, HeaderWords(node))
    requires WritableAll(env, nodes) && ShowsBlock(env, st.cursor + |Words(node)| + 2, nodes)
    requires 0 <= st.nesting && st.nesting + 1 + Depth(nodes) <= MAX_NESTING + 1
    ensures end == After(st, |Words(node)| + 2 + NodesSize(nodes), BlockCount(nodes) + 1)
    ensures Reads(env, st, [], Ok(ArgsRead(Words(node), Block(nodes), end)))
    decreases nodes, 5
  {
    var last := Ahead(st, |Words(node)|);
    CollectHeader(env, st, node);
    BraceShown(env, st.cursor, node);
    end := ReadBackBraces(env, last, Words(node), nodes);
    ReadsFrom(env, st, [], last, Words(node), Ok(ArgsRead(Words(node), Block(nodes), end)));
  }

  lemma {:induction false} ReadBackBraces(env: Env, last: State, args: seq<string>, nodes: seq<Node>) returns (end: State)
    requires PlainWords(args) && WritableAll(env, nodes) && 0 <= last.cursor < |env.tokens| - 1
    requires SameLine(env.tokens, last.cursor) && env.tokens[last.cursor + 1].text == "{" && ShowsBlock(env, last.cursor + 2, nodes)
    requires 0 <= last.nesting && last.nesting + 1 + Depth(nodes) <= MAX_NESTING + 1
    ensures end == After(last, NodesSize(nodes) + 2, BlockCount(nodes) + 1)
    ensures Reads(env, last, args, Ok(ArgsRead(args, Block(nodes), end)))
    decreases nodes, 4
  {
    end := ReadBackBlock(env, Ahead(last, 1), nodes);
    TakeBlock(env, last, args, nodes, end);
  }

  /** The last word of the line that opens a block is the brace. */
  lemma {:induction false} BraceShown(env: Env, c: int, node: Node)
    requires node.block.Block? && ShowsLine(env, c, HeaderWords(node))
    ensures var last := c + |Words(node)|;
            0 <= last < |env.tokens| - 1 && SameLine(env.tokens, last) && env.tokens[last + 1].text == "{"
  {
    var n := |Words(node)|;
    assert WordAt(env, c, HeaderWords(node), n) && WordAt(env, c, HeaderWords(node), n + 1);
  }

  function BlockOf(env: Env, st: State): Option<Result<NodesRead, ParseError>> {
    if -1 <= st.cursor < |env.tokens| then Some(NodesFrom(env, st)) else None
  }

  lemma {:induction false} LineEnds(env: Env, st: State, args: seq<string>)
    requires 0 <= st.cursor < |env.tokens| && EndsLine(env, st.cursor) && PlainWords(args)
    ensures Reads(env, st, args, Ok(ArgsRead(args, NoBlock, st)))
  {
    assert ArgsFrom(env, st, args, NoBlock, false) == JoinLines(env, st, args, NoBlock);
  }

  lemma {:induction false} TakeBlock(env: Env, st: State, args: seq<string>, nodes: seq<Node>, end: State)
    requires 0 <= st.cursor < |env.tokens| - 1 && SameLine(env.tokens, st.cursor) && PlainWords(args)
    requires env.tokens[st.cursor + 1].text == "{"
    requires BlockOf(env, Ahead(st, 1)) == Some(Ok(NodesRead(nodes, end)))
    ensures Reads(env, st, args, Ok(ArgsRead(args, Block(nodes), end)))
  {
    assert ArgsFrom(env, st, args, NoBlock, false) == TakeWord(env, Ahead(st, 1), args, NoBlock);
    assert TakeWord(env, Ahead(st, 1), args, NoBlock) == JoinLines(env, end, args, Block(nodes));
  }

  /** A turn of the loop over lines: where it starts, what was read before, and whether a new line must come. */
  datatype Turn = Turn(st: State, nodes: seq<Node>, newline: bool)

  function LinesOf(env: Env, t: Turn): Option<Result<NodesRead, ParseError>> {
    if -1 <= t.st.cursor < |env.tokens| then Some(LinesFrom(env, t.st, t.nodes, t.newline)) else None
  }

  ghost predicate Yields(env: Env, t: Turn, r: Result<NodesRead, ParseError>) {
    LinesOf(env, t) == Some(r)
  }

  /** The loop gets from one turn to the other. */
  ghost predicate Leads(env: Env, t: Turn, u: Turn) {
    forall r :: Yields(env, u, r) ==> Yields(env, t, r)
  }

  lemma {:induction false} LeadsOn(env: Env, t: Turn, u: Turn, v: Turn)
    requires Leads(env, t, u) && Leads(env, u, v)
    ensures Leads(env, t, v)
  {
    forall r | Yields(env, v, r) ensures Yields(env, t, r) {
      assert Yields(env, u, r);
    }
  }

  /** The body of a shown block, read from just after its opening brace. */
  lemma {:induction false} ReadBackBody(env: Env, st: State, nodes: seq<Node>) returns (end: State)
    requires WritableAll(env, nodes) && 0 <= st.cursor < |env.tokens| && ShowsBlock(env, st.cursor + 1, nodes)
    requires 1 <= st.nesting && st.nesting + Depth(nodes) <= MAX_NESTING + 1
    ensures end == After(st.(nesting := st.nesting - 1), NodesSize(nodes) + 1, BlockCount(nodes) + 1)
    ensures Yields(env, Turn(st, [], false), Ok(NodesRead(nodes, end)))
    decreases nodes, 2
  {
    var last, after := ReadBackLines(env, st, nodes, [], false);
    assert [] + nodes == nodes;
    end := CloseBody(env, st, nodes, NodesSize(nodes), BlockCount(nodes), last, after);
  }

  lemma {:induction false} CloseBody(env: Env, st: State, nodes: seq<Node>, tokens: nat, blocks: nat, last: State, after: bool) returns (end: State)
    requires 0 <= st.cursor < |env.tokens| && 1 <= st.nesting && ShowsLine(env, st.cursor + 1 + tokens, ["}"])
    requires last == After(st, tokens, blocks) && (after ==> EndsLine(env, last.cursor))
    requires Leads(env, Turn(st, [], false), Turn(last, nodes, after))
    ensures end == After(st.(nesting := st.nesting - 1), tokens + 1, blocks + 1)
    ensures Yields(env, Turn(st, [], false), Ok(NodesRead(nodes, end)))
  {
    end := CloseBlock(env, last, nodes, after);
  }

  lemma {:induction false} OpenBlock(env: Env, st: State, r: Result<NodesRead, ParseError>)
    requires st.nesting <= MAX_NESTING && Yields(env, Turn(st.(nesting := st.nesting + 1), [], false), r)
    ensures BlockOf(env, st) == Some(r)
  {
  }

  lemma {:induction false} ReadBackBlock(env: Env, st: State, nodes: seq<Node>) returns (end: State)
    requires WritableAll(env, nodes) && 0 <= st.cursor < |env.tokens| && ShowsBlock(env, st.cursor + 1, nodes)
    requires 0 <= st.nesting && st.nesting + 1 + Depth(nodes) <= MAX_NESTING + 1
    ensures end == After(st, NodesSize(nodes) + 1, BlockCount(nodes) + 1)
    ensures BlockOf(env, st) == Some(Ok(NodesRead(nodes, end)))
    decreases nodes, 3
  {
    end := ReadBackBody(env, st.(nesting := st.nesting + 1), nodes);
    OpenBlock(env, st, Ok(NodesRead(nodes, end)));
  }

  lemma {:induction false} CloseBlock(env: Env, st: State, nodes: seq<Node>, newline: bool) returns (end: State)
    requires -1 <= st.cursor && ShowsLine(env, st.cursor + 1, ["}"]) && 0 < st.nesting
    requires newline ==> EndsLine(env, st.cursor)
    ensures end == After(st.(nesting := st.nesting - 1), 1, 1)
    ensures Yields(env, Turn(st, nodes, newline), Ok(NodesRead(nodes, end)))
  {
    assert WordAt(env, st.cursor + 1, ["}"], 0);
    end := After(st.(nesting := st.nesting - 1), 1, 1);
    ClosingLine(env, st, newline, end);
    LineStops(env, st, nodes, newline, end);
  }

  lemma {:induction false} ClosingLine(env: Env, st: State, newline: bool, end: State)
    requires -1 <= st.cursor < |env.tokens| - 1 && TextAt(env.tokens, st.cursor + 1) == "}" && 0 < st.nesting
    requires newline ==> EndsLine(env, st.cursor)
    requires end == After(st.(nesting := st.nesting - 1), 1, 1)
    ensures LineFrom(env, st, newline) == Ok(Settled(end, [], true))
  {
  }

  lemma {:induction false} LineStops(env: Env, st: State, nodes: seq<Node>, newline: bool, end: State)
    requires -1 <= st.cursor < |env.tokens| && LineFrom(env, st, newline) == Ok(Settled(end, [], true))
    ensures Yields(env, Turn(st, nodes, newline), Ok(NodesRead(nodes, end)))
  {
    assert nodes + [] == nodes;
  }

  lemma {:induction false} ReadBackNode(env: Env, st: State, node: Node) returns (end: State)
    requires Writable(env, node) && ShowsNode(env, st.cursor, node)
    requires 0 <= st.nesting && st.nesting + NodeDepth(node) <= MAX_NESTING + 1
    ensures end == After(st, NodeSize(node) - 1, NodeBlocks(node))
    ensures NodeFrom(env, st) == Ok(NodeRead(node, end))
    decreases node, 2
  {
    end := ReadBackArgs(env, st, node);
    NameIsWord(env, node.name);
    assert WordAt(env, st.cursor, HeaderWords(node), 0) && HeaderWords(node)[0] == Title(node) == node.name;
  }

  /** One turn of the loop over lines keeps the writable directive it has read. */
  lemma {:induction false} KeepsWritable(env: Env, st: State, acc: seq<Node>, newline: bool, node: Node, end: State)
    requires -1 <= st.cursor < |env.tokens| - 1 && Writable(env, node)
    requires newline ==> EndsLine(env, st.cursor)
    requires env.tokens[st.cursor + 1].text == node.name
    requires NodeFrom(env, st.(cursor := st.cursor + 1)) == Ok(NodeRead(node, end))
    ensures Leads(env, Turn(st, acc, newline), Turn(end, acc + [node], true))
  {
    NameIsWord(env, node.name);
    WritableUnexpanded(env, end.macros, node);
    assert LineFrom(env, st, newline) == Ok(Settled(end, [node], false));
    LineKept(env, st, acc, newline, node, end);
  }

  lemma {:induction false} LineKept(env: Env, st: State, acc: seq<Node>, newline: bool, node: Node, end: State)
    requires -1 <= st.cursor < |env.tokens| && LineFrom(env, st, newline) == Ok(Settled(end, [node], false))
    ensures Leads(env, Turn(st, acc, newline), Turn(end, acc + [node], true))
  {
    assert LinesFrom(env, st, acc, newline) == LinesFrom(env, end, acc + [node], true);
  }

  /** A shown directive ends its line, and starts with its name. */
  lemma {:induction false} ShownEnds(env: Env, c: int, node: Node)
    requires ShowsNode(env, c, node)
    ensures 0 <= c < |env.tokens| && env.tokens[c].text == Title(node)
    ensures 0 < NodeSize(node) && c + NodeSize(node) <= |env.tokens| && EndsLine(env, c + NodeSize(node) - 1)
  {
    assert WordAt(env, c, HeaderWords(node), 0) && HeaderWords(node)[0] == Title(node);
  }

  lemma {:induction false} DepthSplit(nodes: seq<Node>)
    requires nodes != []
    ensures NodeDepth(nodes[0]) <= Depth(nodes) && Depth(nodes[1..]) <= Depth(nodes)
  {
  }

  /** Shown nodes pass through the loop over lines one by one. */
  lemma {:induction false} ReadBackLines(env: Env, st: State, nodes: seq<Node>, acc: seq<Node>, newline: bool)
    returns (end: State, after: bool)
    requires WritableAll(env, nodes) && ShowsNodes(env, st.cursor + 1, nodes)
    requires -1 <= st.cursor < |env.tokens|
    requires newline ==> EndsLine(env, st.cursor)
    requires 0 <= st.nesting && st.nesting + Depth(nodes) <= MAX_NESTING + 1
    ensures end == After(st, NodesSize(nodes), BlockCount(nodes)) && after == (newline || nodes != [])
    ensures end.cursor < |env.tokens| && (after ==> EndsLine(env, end.cursor))
    ensures Leads(env, Turn(st, acc, newline), Turn(end, acc + nodes, after))
    decreases nodes, 1
  {
    if nodes == [] {
      end, after := st, newline;
      assert acc + nodes == acc;
    } else {
      DepthSplit(nodes);
      var next := ReadBackFirst(env, st, nodes[0], acc, newline);
      end, after := ReadBackLines(env, next, nodes[1..], acc + [nodes[0]], true);
      assert acc + [nodes[0]] + nodes[1..] == acc + nodes;
      LeadsOn(env, Turn(st, acc, newline), Turn(next, acc + [nodes[0]], true), Turn(end, acc + nodes, after));
    }
  }

  lemma {:induction false} ReadBackFirst(env: Env, st: State, node: Node, acc: seq<Node>, newline: bool)
    returns (next: State)
    requires Writable(env, node) && ShowsNode(env, st.cursor + 1, node)
    requires -1 <= st.cursor < |env.tokens|
    requires newline ==> EndsLine(env, st.cursor)
    requires 0 <= st.nesting && st.nesting + NodeDepth(node) <= MAX_NESTING + 1
    ensures next == After(st, NodeSize(node), NodeBlocks(node))
    ensures next.cursor < |env.tokens| && EndsLine(env, next.cursor)
    ensures Leads(env, Turn(st, acc, newline), Turn(next, acc + [node], true))
    decreases node, 3
  {
    var here := st.(cursor := st.cursor + 1);
    ShownEnds(env, here.cursor, node);
    next := ReadBackNode(env, here, node);
    KeepsWritable(env, st, acc, newline, node, next);
  }

  /** Parser round trip: a writable tree whose blocks nest at most 256 deep parses back to exactly that
      tree, with the cursor on the last token, the nesting restored and nothing else recorded. */
  lemma {:induction false} TreeRoundTrip(env: Env, nodes: seq<Node>)
    requires WritableAll(env, nodes) && Depth(nodes) <= MAX_NESTING + 1
    requires LaidOut(env.tokens, NodesPieces(nodes))
    ensures TreeOf(env) == Ok(NodesRead(nodes, State(|env.tokens| - 1, 0, BlockCount(nodes), map[], map[])))
  {
    var ps := NodesPieces(nodes);
    assert ps[0..0 + |ps|] == ps;
    NodesShown(env, ps, 0, nodes);
    var root := INITIAL.(nesting := 0);
    var end, after := ReadBackLines(env, root, nodes, [], false);
    assert [] + nodes == nodes;
    FileEnds(env, end, nodes, after);
    assert Yields(env, Turn(root, [], false), Ok(NodesRead(nodes, end)));
    OpenBlock(env, INITIAL, Ok(NodesRead(nodes, end)));
  }

  lemma {:induction false} FileEnds(env: Env, st: State, nodes: seq<Node>, newline: bool)
    requires -1 <= st.cursor == |env.tokens| - 1
    ensures Yields(env, Turn(st, nodes, newline), Ok(NodesRead(nodes, st)))
  {
    assert LineFrom(env, st, newline) == Ok(Settled(st, [], true));
    LineStops(env, st, nodes, newline, st);
  }

  /** From text to tree: writing a tree out, lexing the text and parsing the tokens gives the tree back,
      provided no text in it ends in, or holds before a quote, an odd run of backslashes. */
  lemma {:induction false} FileRoundTrip(env: Env, nodes: seq<Node>)
    requires WritableAll(env, nodes) && Depth(nodes) <= MAX_NESTING + 1 && AllEven(NodesPieces(nodes))
    requires env.tokens == Lex(Write(nodes))
    ensures TreeOf(env).Ok? && TreeOf(env).value.nodes == nodes
  {
    BlankLayout(nodes);
    QuoteRoundTrip(NodesPieces(nodes));
    PieceTokensLaidOut(NodesPieces(nodes), 1);
    TreeRoundTrip(env, nodes);
  }

  lemma {:induction false} BlankLayout(nodes: seq<Node>)
    ensures AllBlank(NodesPieces(nodes))
    decreases nodes
  {
    if nodes != [] {
      if nodes[0].block.Block? {
        BlankLayout(nodes[0].block.nodes);
      }
      BlankLayout(nodes[1..]);
    }
  }
}
