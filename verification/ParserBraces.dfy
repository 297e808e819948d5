/** What every accepted file satisfies, whatever its tokens: it is read to the end, and its opening
    braces are matched one for one by the closing braces the parser acted upon. */
module ParserBraces {
  import opened Common
  import opened Lexer
  import opened Dispenser
  import opened Parser

  /** How many of the first `n` tokens read `text`. */
  function CountTo(tokens: seq<Token>, text: string, n: nat): nat
    requires n <= |tokens|
  {
    if n == 0 then 0 else CountTo(tokens, text, n - 1) + if tokens[n - 1].text == text then 1 else 0
  }

  function CountIn(args: seq<string>, text: string): nat {
    if args == [] then 0 else CountIn(Front(args), text) + if Last(args) == text then 1 else 0
  }

  ghost predicate InRange(env: Env, st: State) {
    -1 <= st.cursor < |env.tokens|
  }

  /** Blocks opened so far, according to the parser's own counters. */
  function Opened(st: State): int {
    st.nesting + st.closed
  }

  /** Opening braces passed so far, according to the tokens. */
  function Passed(env: Env, st: State): nat
    requires InRange(env, st)
  {
    CountTo(env.tokens, "{", st.cursor + 1)
  }

  function ClosersPassed(env: Env, st: State): nat
    requires InRange(env, st)
  {
    CountTo(env.tokens, "}", st.cursor + 1)
  }

  /** From `st` to `end`: every opening brace passed opened a block, and the closers acted upon,
      together with `pending` ones not yet acted upon, are all among the closers passed. */
  ghost predicate Accounted(env: Env, st: State, held: nat, end: State, pending: nat) {
    && InRange(env, st) && InRange(env, end)
    && Opened(end) - Passed(env, end) == Opened(st) - Passed(env, st)
    && end.closed + pending - ClosersPassed(env, end) <= st.closed + held - ClosersPassed(env, st)
  }

  /** The nesting is at most `bound`, unless the tokens ended inside a block. */
  ghost predicate Level(env: Env, st: State, bound: int) {
    0 <= st.nesting && (st.cursor == |env.tokens| - 1 || st.nesting <= bound)
  }

  lemma {:induction false} CountInTail(args: seq<string>, text: string)
    requires args != []
    ensures CountIn(args[1..], text) <= CountIn(args, text)
  {
    if |args| > 1 {
      assert Front(args)[1..] == Front(args[1..]);
      CountInTail(Front(args), text);
    }
  }

  lemma {:induction false} SettleAccounted(env: Env, st: State, read: Node, bound: int)
    requires InRange(env, st) && Settle(st, read).Ok? && Level(env, st, bound)
    ensures Accounted(env, st, CountIn(read.args, "}"), Settle(st, read).value.st, 0)
    ensures var settled := Settle(st, read).value;
            Level(env, settled.st, if settled.stop then bound - 1 else bound)
  {
  }

  lemma {:induction false} NodeAccounted(env: Env, st: State, bound: int)
    requires 0 <= st.cursor < |env.tokens| && NodeFrom(env, st).Ok? && Level(env, st, bound)
    ensures var read := NodeFrom(env, st).value;
            Accounted(env, st, 0, read.st, CountIn(read.node.args, "}")) && Level(env, read.st, bound)
    decreases 2 * (|env.tokens| - st.cursor), 2
  {
    ArgsAccounted(env, st, [], NoBlock, false, bound);
    var args := ArgsFrom(env, st, [], NoBlock, false).value.args;
    if args != [] {
      CountInTail(args, "}");
    }
  }

  lemma {:induction false} ArgsAccounted(env: Env, st: State, args: seq<string>, block: Block, joined: bool, bound: int)
    requires 0 <= st.cursor < |env.tokens| && ArgsFrom(env, st, args, block, joined).Ok? && Level(env, st, bound)
    ensures var read := ArgsFrom(env, st, args, block, joined).value;
            Accounted(env, st, CountIn(args, "}"), read.st, CountIn(read.args, "}"))
            && Level(env, read.st, bound)
    decreases 2 * (|env.tokens| - st.cursor) + |args|, 1
  {
    if CanNextArg(env.tokens, st.cursor) || (joined && CanNextLine(env.tokens, st.cursor)) {
      WordAccounted(env, st.(cursor := st.cursor + 1), args, block, bound);
    } else if args != [] && Last(args) == "\\" {
      ArgsAccounted(env, st, Front(args), block, true, bound);
    }
  }

  lemma {:induction false} WordAccounted(env: Env, st: State, args: seq<string>, block: Block, bound: int)
    requires 0 < st.cursor < |env.tokens| && TakeWord(env, st, args, block).Ok? && st.nesting >= 0 && st.nesting <= bound
    ensures var read := TakeWord(env, st, args, block).value;
            Accounted(env, st.(cursor := st.cursor - 1), CountIn(args, "}"), read.st, CountIn(read.args, "}"))
            && Level(env, read.st, bound)
    decreases 2 * (|env.tokens| - st.cursor) + |args| + 1, 2
  {
    var word := TextAt(env.tokens, st.cursor);
    if word != "{" {
      ArgsAccounted(env, st, args + [word], block, false, bound);
      assert Front(args + [word]) == args;
    } else {
      NodesAccounted(env, st, bound);
      var read := NodesFrom(env, st).value;
      if args != [] && Last(args) == "\\" {
        ArgsAccounted(env, read.st, Front(args), Block(read.nodes), true, bound);
      }
    }
  }

  /** A block raises the count by one: its own opening brace was passed before it is read. */
  lemma {:induction false} NodesAccounted(env: Env, st: State, bound: int)
    requires InRange(env, st) && NodesFrom(env, st).Ok? && -1 <= st.nesting <= bound
    ensures var end := NodesFrom(env, st).value.st;
            Accounted(env, st.(nesting := st.nesting + 1), 0, end, 0) && Level(env, end, bound)
    decreases 2 * (|env.tokens| - st.cursor), 2
  {
    LinesAccounted(env, st.(nesting := st.nesting + 1), [], false, bound + 1);
  }

  lemma {:induction false} AccountedOn(env: Env, a: State, x: nat, b: State, y: nat, c: State, z: nat)
    requires Accounted(env, a, x, b, y) && Accounted(env, b, y, c, z)
    ensures Accounted(env, a, x, c, z)
  {
  }

  /** The next token is no brace. */
  lemma {:induction false} WordPassed(env: Env, st: State)
    requires -1 <= st.cursor < |env.tokens| - 1 && TextAt(env.tokens, st.cursor + 1) != "{" && TextAt(env.tokens, st.cursor + 1) != "}"
    ensures Accounted(env, st, 0, st.(cursor := st.cursor + 1), 0)
  {
  }

  lemma {:induction false} CloserPassed(env: Env, st: State)
    requires -1 <= st.cursor < |env.tokens| - 1 && TextAt(env.tokens, st.cursor + 1) == "}"
    ensures Accounted(env, st, 0, st.(cursor := st.cursor + 1, nesting := st.nesting - 1, closed := st.closed + 1), 0)
  {
  }

  lemma {:induction false} DirectiveAccounted(env: Env, st: State, bound: int)
    requires -1 <= st.cursor < |env.tokens| - 1 && Level(env, st, bound) && TextAt(env.tokens, st.cursor + 1) != "}"
    requires NodeFrom(env, st.(cursor := st.cursor + 1)).Ok?
    ensures var read := NodeFrom(env, st.(cursor := st.cursor + 1)).value;
            Accounted(env, st, 0, read.st, CountIn(read.node.args, "}")) && Level(env, read.st, bound)
    decreases 2 * (|env.tokens| - st.cursor) - 2, 3
  {
    var here := st.(cursor := st.cursor + 1);
    NodeAccounted(env, here, bound);
    WordPassed(env, st);
    var read := NodeFrom(env, here).value;
    AccountedOn(env, st, 0, here, 0, read.st, CountIn(read.node.args, "}"));
  }

  lemma {:induction false} LineAccounted(env: Env, st: State, newline: bool, bound: int)
    requires InRange(env, st) && LineFrom(env, st, newline).Ok? && Level(env, st, bound)
    ensures var line := LineFrom(env, st, newline).value;
            && Accounted(env, st, 0, line.st, 0)
            && Level(env, line.st, if line.stop then bound - 1 else bound)
    decreases 2 * (|env.tokens| - st.cursor), 0
  {
    if CanNext(env.tokens, st.cursor) {
      var here := st.(cursor := st.cursor + 1);
      if TextAt(env.tokens, here.cursor) == "}" {
        CloserPassed(env, st);
      } else {
        var line := LineFrom(env, st, newline).value;
        DirectiveAccounted(env, st, bound);
        var read := NodeFrom(env, here).value;
        assert LineFrom(env, st, newline) == Settle(read.st, read.node);
        SettleAccounted(env, read.st, read.node, bound);
        AccountedOn(env, st, 0, read.st, CountIn(read.node.args, "}"), line.st, 0);
      }
    }
  }

  lemma {:induction false} LinesAccounted(env: Env, st: State, nodes: seq<Node>, newline: bool, bound: int)
    requires InRange(env, st) && LinesFrom(env, st, nodes, newline).Ok? && Level(env, st, bound)
    ensures var end := LinesFrom(env, st, nodes, newline).value.st;
            Accounted(env, st, 0, end, 0) && Level(env, end, bound - 1)
    decreases 2 * (|env.tokens| - st.cursor), 1
  {
    LineAccounted(env, st, newline, bound);
    var line := LineFrom(env, st, newline).value;
    if !line.stop {
      LinesAccounted(env, line.st, nodes + line.kept, true, bound);
    }
  }

  /** A file that parses is read to its last token, every opening brace in it opened a block, and
      exactly as many closing braces were acted upon, each of them a token of the file. */
  lemma {:induction false} AcceptedFilesBalance(env: Env)
    requires TreeOf(env).Ok?
    ensures var end := TreeOf(env).value.st;
            && end.cursor == |env.tokens| - 1
            && end.nesting == 0
            && end.closed == CountTo(env.tokens, "{", |env.tokens|) <= CountTo(env.tokens, "}", |env.tokens|)
  {
    NodesAccounted(env, INITIAL, -1);
  }
}
