/** The block parser: directives, nested blocks, line continuation, snippets and macros. */
module Parser {
  import opened Common
  import opened Lexer
  import opened Dispenser

  /** `NoBlock` is a directive without braces, `Block([])` one with empty braces. */
  datatype Block = NoBlock | Block(nodes: seq<Node>)

  datatype Node = Node(name: string, args: seq<string>, block: Block, isSnippet: bool, isMacro: bool)

  type Macros = map<string, seq<string>>
  type Snippets = map<string, seq<Node>>

  datatype ParseError =
    | BlockHeaderExpected
    | BadDirectiveName
    | BadMacroName
    | TooFewMacroArguments
    | MissingMacroEquals
    | MacroAsDirectiveName
    | MacroInsideString
    | MacroWithoutValue
    | NestingLimitReached
    | NewlineRequired
    | UnexpectedClosingBrace
    | MacroBelowTopLevel
    | SnippetBelowTopLevel
    | SnippetWithArguments
    | UnexpectedEnd

  /** What a parse depends on besides its mutable state: the tokens and the character classes beyond
      ASCII. */
  datatype Env = Env(tokens: seq<Token>, letter: char -> bool, digit: char -> bool)

  /** The mutable fields of the parse context. `closed` counts the closing braces acted upon. */
  datatype State = State(cursor: int, nesting: int, closed: nat, snippets: Snippets, macros: Macros)

  datatype NodeRead = NodeRead(node: Node, st: State)
  datatype NodesRead = NodesRead(nodes: seq<Node>, st: State)
  datatype ArgsRead = ArgsRead(args: seq<string>, block: Block, st: State)

  /** What reading one directive inside a block leads to: `stop` ends the block. */
  datatype Settled = Settled(st: State, kept: seq<Node>, stop: bool)

  const MAX_NESTING := 255

  // ---------------------------------------------------------------- names and macro references

  predicate Letter(env: Env, c: char) {
    if c < '\U{80}' then 'a' <= c <= 'z' || 'A' <= c <= 'Z' else env.letter(c)
  }

  predicate Digit(env: Env, c: char) {
    if c < '\U{80}' then '0' <= c <= '9' else env.digit(c)
  }

  predicate ValidName(env: Env, name: string) {
    && name != ""
    && !Digit(env, name[0])
    && forall i :: 0 <= i < |name| ==>
         Letter(env, name[i]) || Digit(env, name[i]) || name[i] == '.' || name[i] == '-' || name[i] == '_'
  }

  predicate IsMacroRef(s: string) {
    HasPrefix(s, "$(") && HasSuffix(s, ")")
  }

  lemma {:induction false} MacroRefLength(s: string)
    requires IsMacroRef(s)
    ensures |s| >= 3
  {
    assert s[1] == "$("[1] == '(';
    assert s[|s| - 1] == s[|s| - 1..][0] == ')';
  }

  function MacroRefName(s: string): string
    requires IsMacroRef(s)
  {
    MacroRefLength(s);
    s[2..|s| - 1]
  }

  predicate HoldsMacroRef(s: string) {
    Contains(s, "$(") && Contains(s, ")")
  }

  /** The end of the longest reference at the start of `s`: one past the last closing parenthesis, from `k`
      on, that no dollar sign comes before. */
  function RefEnd(s: string, k: nat, best: nat): (end: nat)
    ensures best <= |s| ==> end <= |s|
    ensures end == best || k < end
    decreases |s| - k
  {
    if k >= |s| || s[k] == '$' then best
    else RefEnd(s, k + 1, if s[k] == ')' then k + 1 else best)
  }

  /** The names referred to inside an argument, from left to right. */
  function NamesIn(s: string): seq<string>
    decreases |s|
  {
    if s == "" then []
    else
      var end := if HasPrefix(s, "$(") && |s| > 2 && s[2] != '$' then RefEnd(s, 3, 0) else 0;
      if end == 0 then NamesIn(s[1..]) else [s[2..end - 1]] + NamesIn(s[end..])
  }

  function ReplaceAll(s: string, what: string, value: string): string
    requires what != ""
    decreases |s|
  {
    if s == "" then ""
    else if HasPrefix(s, what) then value + ReplaceAll(s[|what|..], what, value)
    else [s[0]] + ReplaceAll(s[1..], what, value)
  }

  function Reference(name: string): string {
    "$(" + name + ")"
  }

  /** Replaces the references in the middle of an argument, one name after the other. A macro used there has
      one value; for one that was declared with none the source fails at the index. */
  function Splice(macros: Macros, names: seq<string>, arg: string): Result<string, ParseError> {
    if names == [] then Ok(arg)
    else
      var values := if names[0] in macros then macros[names[0]] else [""];
      if |values| > 1 then Err(MacroInsideString)
      else if values == [] then Err(MacroWithoutValue)
      else Splice(macros, names[1..], ReplaceAll(arg, Reference(names[0]), values[0]))
  }

  function ExpandArg(macros: Macros, arg: string): Result<seq<string>, ParseError> {
    if IsMacroRef(arg) then
      var name := MacroRefName(arg);
      Ok(if name in macros then macros[name] else [])
    else if HoldsMacroRef(arg) then
      match Splice(macros, NamesIn(arg), arg)
      case Ok(value) => Ok([value])
      case Err(e) => Err(e)
    else Ok([arg])
  }

  function ExpandArgs(macros: Macros, args: seq<string>): Result<seq<string>, ParseError> {
    if args == [] then Ok([])
    else
      match ExpandArg(macros, args[0])
      case Err(e) => Err(e)
      case Ok(first) =>
        match ExpandArgs(macros, args[1..])
        case Err(e) => Err(e)
        case Ok(rest) => Ok(first + rest)
  }

  function ExpandMacros(macros: Macros, node: Node): Result<Node, ParseError> {
    if IsMacroRef(node.name) then Err(MacroAsDirectiveName)
    else
      match ExpandArgs(macros, node.args)
      case Err(e) => Err(e)
      case Ok(args) =>
        match node.block
        case NoBlock => Ok(node.(args := args))
        case Block(nodes) =>
          match ExpandMacrosAll(macros, nodes)
          case Err(e) => Err(e)
          case Ok(expanded) => Ok(node.(args := args, block := Block(expanded)))
  }

  function ExpandMacrosAll(macros: Macros, nodes: seq<Node>): Result<seq<Node>, ParseError> {
    if nodes == [] then Ok([])
    else
      match ExpandMacros(macros, nodes[0])
      case Err(e) => Err(e)
      case Ok(first) =>
        match ExpandMacrosAll(macros, nodes[1..])
        case Err(e) => Err(e)
        case Ok(rest) => Ok([first] + rest)
  }

  // ---------------------------------------------------------------- directives

  function StartNode(name: string): Node {
    if HasPrefix(name, "(") && HasSuffix(name, ")") && |name| >= 2
    then Node(name[1..|name| - 1], [], NoBlock, true, false)
    else Node(name, [], NoBlock, false, false)
  }

  /** Turns a read directive into a macro declaration if it is one, and checks its name otherwise. */
  function FinishNode(env: Env, node: Node): Result<Node, ParseError> {
    if HasPrefix(node.name, "$(") && !HasSuffix(node.name, ")") then Err(BadMacroName)
    else if IsMacroRef(node.name) && |node.args| < 2 then Err(TooFewMacroArguments)
    else if IsMacroRef(node.name) && node.args[0] != "=" then Err(MissingMacroEquals)
    else if IsMacroRef(node.name) && MacroRefName(node.name) != "" then
      Ok(node.(name := MacroRefName(node.name), args := node.args[1..], isMacro := true))
    else if node.isSnippet || ValidName(env, node.name) then Ok(node)
    else Err(BadDirectiveName)
  }

  /** The end of one turn of the loop over the lines of a block. */
  function Settle(st: State, read: Node): Result<Settled, ParseError> {
    var closes := read.args != [] && Last(read.args) == "}";
    var here := if closes then st.(nesting := st.nesting - 1, closed := st.closed + 1) else st;
    var node := if closes then read.(args := Front(read.args)) else read;
    if closes && here.nesting < 0 then Err(UnexpectedClosingBrace)
    else if node.isMacro then
      if here.nesting != 0 then Err(MacroBelowTopLevel)
      else
        match ExpandMacros(here.macros, node)
        case Err(e) => Err(e)
        case Ok(macro) => Ok(Settled(here.(macros := here.macros[macro.name := macro.args]), [], false))
    else if node.isSnippet then
      if here.nesting != 0 then Err(SnippetBelowTopLevel)
      else if node.args != [] then Err(SnippetWithArguments)
      else
        var body := if node.block.NoBlock? then [] else node.block.nodes;
        Ok(Settled(here.(snippets := here.snippets[node.name := body]), [], false))
    else
      match ExpandMacros(here.macros, node)
      case Err(e) => Err(e)
      case Ok(kept) => Ok(Settled(here, [kept], closes))
  }

  /** Reads the directive whose name is under the cursor; the cursor ends on its last token. */
  function NodeFrom(env: Env, st: State): (r: Result<NodeRead, ParseError>)
    requires 0 <= st.cursor < |env.tokens|
    ensures r.Ok? ==> st.cursor <= r.value.st.cursor < |env.tokens|
    decreases 2 * (|env.tokens| - st.cursor), 2
  {
    var name := TextAt(env.tokens, st.cursor);
    if name == "{" then Err(BlockHeaderExpected)
    else
      match ArgsFrom(env, st, [], NoBlock, false)
      case Err(e) => Err(e)
      case Ok(read) =>
        match FinishNode(env, StartNode(name).(args := read.args, block := read.block))
        case Err(e) => Err(e)
        case Ok(node) => Ok(NodeRead(node, read.st))
  }

  /** The arguments and the block of a directive; `joined` says that a lone backslash has just
      joined the next line to this one. */
  function ArgsFrom(env: Env, st: State, args: seq<string>, block: Block, joined: bool)
    : (r: Result<ArgsRead, ParseError>)
    requires 0 <= st.cursor < |env.tokens|
    ensures r.Ok? ==> st.cursor <= r.value.st.cursor < |env.tokens|
    decreases 2 * (|env.tokens| - st.cursor) + |args|, 1
  {
    if CanNextArg(env.tokens, st.cursor) || (joined && CanNextLine(env.tokens, st.cursor))
    then TakeWord(env, st.(cursor := st.cursor + 1), args, block)
    else JoinLines(env, st, args, block)
  }

  /** The word under the cursor is either an argument or the brace that opens the block. */
  function TakeWord(env: Env, st: State, args: seq<string>, block: Block): (r: Result<ArgsRead, ParseError>)
    requires 0 <= st.cursor < |env.tokens|
    ensures r.Ok? ==> st.cursor <= r.value.st.cursor < |env.tokens|
    decreases 2 * (|env.tokens| - st.cursor) + |args| + 1, 2
  {
    var word := TextAt(env.tokens, st.cursor);
    if word != "{" then ArgsFrom(env, st, args + [word], block, false)
    else
      match NodesFrom(env, st)
      case Err(e) => Err(e)
      case Ok(read) => JoinLines(env, read.st, args, Block(read.nodes))
  }

  function JoinLines(env: Env, st: State, args: seq<string>, block: Block): (r: Result<ArgsRead, ParseError>)
    requires 0 <= st.cursor < |env.tokens|
    ensures r.Ok? ==> st.cursor <= r.value.st.cursor < |env.tokens|
    decreases 2 * (|env.tokens| - st.cursor) + |args|, 0
  {
    if args != [] && Last(args) == "\\" then ArgsFrom(env, st, Front(args), block, true)
    else Ok(ArgsRead(args, block, st))
  }

  /** Reads a block from its opening brace; the cursor ends on its last token. */
  function NodesFrom(env: Env, st: State): (r: Result<NodesRead, ParseError>)
    requires -1 <= st.cursor < |env.tokens|
    ensures r.Ok? ==> st.cursor <= r.value.st.cursor < |env.tokens|
    decreases 2 * (|env.tokens| - st.cursor), 2
  {
    if st.nesting > MAX_NESTING then Err(NestingLimitReached)
    else LinesFrom(env, st.(nesting := st.nesting + 1), [], false)
  }

  /** One logical line of a block: its end, its closing brace, or a directive. */
  function LineFrom(env: Env, st: State, newline: bool): (r: Result<Settled, ParseError>)
    requires -1 <= st.cursor < |env.tokens|
    ensures r.Ok? ==> st.cursor <= r.value.st.cursor < |env.tokens|
    ensures r.Ok? && !r.value.stop ==> st.cursor < r.value.st.cursor
    decreases 2 * (|env.tokens| - st.cursor), 0
  {
    if !CanNext(env.tokens, st.cursor) then Ok(Settled(st, [], true))
    else if newline && !CanNextLine(env.tokens, st.cursor) then Err(NewlineRequired)
    else
      var here := st.(cursor := st.cursor + 1);
      if TextAt(env.tokens, here.cursor) == "}" then
        if here.nesting - 1 < 0 then Err(UnexpectedClosingBrace)
        else Ok(Settled(here.(nesting := here.nesting - 1, closed := here.closed + 1), [], true))
      else
        match NodeFrom(env, here)
        case Err(e) => Err(e)
        case Ok(read) => Settle(read.st, read.node)
  }

  /** The loop over the logical lines of a block. */
  function LinesFrom(env: Env, st: State, nodes: seq<Node>, newline: bool): (r: Result<NodesRead, ParseError>)
    requires -1 <= st.cursor < |env.tokens|
    ensures r.Ok? ==> st.cursor <= r.value.st.cursor < |env.tokens|
    decreases 2 * (|env.tokens| - st.cursor), 1
  {
    match LineFrom(env, st, newline)
    case Err(e) => Err(e)
    case Ok(line) =>
      if line.stop then Ok(NodesRead(nodes + line.kept, line.st))
      else LinesFrom(env, line.st, nodes + line.kept, true)
  }

  predicate DirectiveAhead(env: Env, st: State) {
    CanNext(env.tokens, st.cursor) && TextAt(env.tokens, st.cursor + 1) != "}"
  }

  lemma {:induction false} LineOfDirective(env: Env, st: State, newline: bool) returns (read: NodeRead)
    requires -1 <= st.cursor < |env.tokens| && DirectiveAhead(env, st) && LineFrom(env, st, newline).Ok?
    ensures NodeFrom(env, st.(cursor := st.cursor + 1)) == Ok(read) && LineFrom(env, st, newline) == Settle(read.st, read.node)
  {
    read := NodeFrom(env, st.(cursor := st.cursor + 1)).value;
  }

  lemma {:induction false} LineWithoutDirective(env: Env, st: State, newline: bool)
    requires -1 <= st.cursor < |env.tokens| && !DirectiveAhead(env, st) && LineFrom(env, st, newline).Ok?
    ensures var line := LineFrom(env, st, newline).value;
            line.kept == [] && line.st.snippets == st.snippets && line.st.macros == st.macros
  {
  }

  const INITIAL := State(-1, -1, 0, map[], map[])

  /** A whole file, up to the expansion of imports. */
  function TreeOf(env: Env): Result<NodesRead, ParseError> {
    match NodesFrom(env, INITIAL)
    case Err(e) => Err(e)
    case Ok(read) => if read.st.nesting > 0 then Err(UnexpectedEnd) else Ok(read)
  }

  // ---------------------------------------------------------------- the imperative parser

  class ParseContext {
    const env: Env
    const at: Cursor
    var nesting: int
    ghost var closed: nat
    var snippets: Snippets
    var macros: Macros

    constructor (env: Env)
      ensures this.env == env && fresh(at) && Valid() && Now() == INITIAL
    {
      this.env := env;
      at := new Cursor(env.tokens);
      nesting, closed, snippets, macros := -1, 0, map[], map[];
    }

    ghost predicate Valid() {
      at.tokens == env.tokens
    }

    ghost function Now(): State
      reads this, at
    {
      State(at.cursor, nesting, closed, snippets, macros)
    }

    /** Moves to the next word of the directive, on this line or, after a backslash, on the next. */
    method NextWord(joined: bool) returns (ok: bool)
      requires Valid() && 0 <= at.cursor
      modifies at
      ensures ok == (CanNextArg(env.tokens, old(at.cursor)) || (joined && CanNextLine(env.tokens, old(at.cursor))))
      ensures at.cursor == old(at.cursor) + if ok then 1 else 0
    {
      ok := at.NextArg();
      if !ok && joined {
        ok := at.NextLine();
      }
    }

    method ReadNode() returns (r: Result<Node, ParseError>)
      requires Valid() && 0 <= at.cursor < |env.tokens|
      modifies this, at
      ensures match NodeFrom(env, old(Now()))
              case Err(e) => r == Err(e)
              case Ok(read) => r == Ok(read.node) && Now() == read.st
      decreases 2 * (|env.tokens| - at.cursor), 1
    {
      var name := at.Val();
      if name == "{" {
        return Err(BlockHeaderExpected);
      }
      var args, block := [], NoBlock;
      var joined, reading := false, true;
      while reading
        invariant 0 <= old(at.cursor) <= at.cursor < |env.tokens|
        invariant ArgsFrom(env, old(Now()), [], NoBlock, false)
               == if reading then ArgsFrom(env, Now(), args, block, joined) else Ok(ArgsRead(args, block, Now()))
        decreases reading, 2 * (|env.tokens| - at.cursor) + |args|
      {
        ghost var from, words := at.cursor, |args|;
        var more := NextWord(joined);
        while more
          invariant 0 <= old(at.cursor) <= from <= at.cursor < |env.tokens|
          invariant |args| + (if more then 1 else 0) <= words + (at.cursor - from)
          invariant ArgsFrom(env, old(Now()), [], NoBlock, false)
                 == if more then TakeWord(env, Now(), args, block) else JoinLines(env, Now(), args, block)
          decreases |env.tokens| - at.cursor, more
        {
          if at.Val() == "{" {
            var inner := ReadNodes();
            if inner.Err? {
              return Err(inner.error);
            }
            block := Block(inner.value);
            more := false;
          } else {
            args := args + [at.Val()];
            more := NextWord(false);
          }
        }
        if args != [] && Last(args) == "\\" {
          args := Front(args);
          joined := true;
        } else {
          reading := false;
        }
      }
      return FinishNode(env, StartNode(name).(args := args, block := block));
    }

    method ReadNodes() returns (r: Result<seq<Node>, ParseError>)
      requires Valid() && -1 <= at.cursor < |env.tokens|
      modifies this, at
      ensures match NodesFrom(env, old(Now()))
              case Err(e) => r == Err(e)
              case Ok(read) => r == Ok(read.nodes) && Now() == read.st
      decreases 2 * (|env.tokens| - at.cursor), 1
    {
      if nesting > MAX_NESTING {
        return Err(NestingLimitReached);
      }
      nesting := nesting + 1;
      var nodes, newline, reading := [], false, true;
      while reading
        invariant -1 <= old(at.cursor) <= at.cursor < |env.tokens|
        invariant reading && newline ==> 0 <= at.cursor
        invariant NodesFrom(env, old(Now()))
               == if reading then LinesFrom(env, Now(), nodes, newline) else Ok(NodesRead(nodes, Now()))
        decreases |env.tokens| - at.cursor, reading
      {
        var kept, stop, failed := ReadLine(newline);
        if failed.Some? {
          return Err(failed.value);
        }
        nodes := nodes + kept;
        reading := !stop;
        newline := true;
      }
      return Ok(nodes);
    }

    /** One turn of the loop over logical lines. */
    method ReadLine(newline: bool) returns (kept: seq<Node>, stop: bool, failed: Option<ParseError>)
      requires Valid() && -1 <= at.cursor < |env.tokens|
      requires newline ==> 0 <= at.cursor
      modifies this, at
      ensures match LineFrom(env, old(Now()), newline)
              case Err(e) => failed == Some(e)
              case Ok(line) => failed.None? && kept == line.kept && stop == line.stop && Now() == line.st
      decreases 2 * (|env.tokens| - at.cursor), 0
    {
      kept, stop, failed := [], true, None;
      if newline {
        var advanced := at.NextLine();
        if !advanced {
          var another := at.Next();
          if another {
            failed := Some(NewlineRequired);
          }
          return;
        }
      } else {
        var advanced := at.Next();
        if !advanced {
          return;
        }
      }
      if at.Val() == "}" {
        nesting, closed := nesting - 1, closed + 1;
        if nesting < 0 {
          failed := Some(UnexpectedClosingBrace);
        }
        return;
      }
      var read := ReadNode();
      if read.Err? {
        failed := Some(read.error);
        return;
      }
      kept, stop, failed := SettleNode(read.value);
    }

    /** Closes the block if the directive ends in a brace, then keeps the directive or files it
        away as a macro or a snippet. */
    method SettleNode(read: Node) returns (kept: seq<Node>, stop: bool, failed: Option<ParseError>)
      modifies this
      ensures at.cursor == old(at.cursor)
      ensures match Settle(old(Now()), read)
              case Err(e) => failed == Some(e)
              case Ok(settled) => failed.None? && kept == settled.kept && stop == settled.stop && Now() == settled.st
    {
      kept, stop, failed := [], false, None;
      var node := read;
      if node.args != [] && Last(node.args) == "}" {
        nesting, closed := nesting - 1, closed + 1;
        if nesting < 0 {
          failed := Some(UnexpectedClosingBrace);
          return;
        }
        node := node.(args := Front(node.args));
        stop := true;
      }
      if node.isMacro {
        stop := false;
        if nesting != 0 {
          failed := Some(MacroBelowTopLevel);
          return;
        }
        match ExpandMacros(macros, node) {
          case Err(e) => failed := Some(e);
          case Ok(macro) => macros := macros[macro.name := macro.args];
        }
      } else if node.isSnippet {
        stop := false;
        if nesting != 0 {
          failed := Some(SnippetBelowTopLevel);
        } else if node.args != [] {
          failed := Some(SnippetWithArguments);
        } else {
          snippets := snippets[node.name := if node.block.NoBlock? then [] else node.block.nodes];
        }
      } else {
        match ExpandMacros(macros, node) {
          case Err(e) => failed := Some(e);
          case Ok(expanded) => kept := [expanded];
        }
      }
    }
  }
}
