/** The line-aware cursor over the token list. */
module Dispenser {
  import opened Common
  import opened Lexer

  /** No line break between token `c` and the next one (both from the same file). */
  predicate SameLine(tokens: seq<Token>, c: nat)
    requires c < |tokens| - 1
  {
    tokens[c].file == tokens[c + 1].file && tokens[c].line + Breaks(tokens[c].text) == tokens[c + 1].line
  }

  predicate LaterLine(tokens: seq<Token>, c: nat)
    requires c < |tokens| - 1
  {
    tokens[c].file != tokens[c + 1].file || tokens[c].line + Breaks(tokens[c].text) < tokens[c + 1].line
  }

  predicate CanNext(tokens: seq<Token>, c: int) {
    c < |tokens| - 1
  }

  predicate CanNextArg(tokens: seq<Token>, c: int) {
    c < 0 || (c < |tokens| - 1 && SameLine(tokens, c))
  }

  predicate CanNextLine(tokens: seq<Token>, c: int) {
    c < 0 || (c < |tokens| - 1 && LaterLine(tokens, c))
  }

  function TextAt(tokens: seq<Token>, c: int): string {
    if c < 0 || c >= |tokens| then "" else tokens[c].text
  }

  class Cursor {
    const tokens: seq<Token>
    var cursor: int

    /** The cursor starts before the first token. */
    constructor (tokens: seq<Token>)
      ensures this.tokens == tokens && cursor == -1
    {
      this.tokens := tokens;
      cursor := -1;
    }

    method Next() returns (ok: bool)
      modifies this
      ensures ok == CanNext(tokens, old(cursor))
      ensures cursor == old(cursor) + if ok then 1 else 0
    {
      if cursor < |tokens| - 1 {
        cursor := cursor + 1;
        return true;
      }
      return false;
    }

    method NextArg() returns (ok: bool)
      modifies this
      ensures ok == CanNextArg(tokens, old(cursor))
      ensures cursor == old(cursor) + if ok then 1 else 0
    {
      if cursor < 0 {
        cursor := cursor + 1;
        return true;
      }
      if cursor >= |tokens| {
        return false;
      }
      if cursor < |tokens| - 1 && tokens[cursor].file == tokens[cursor + 1].file
         && tokens[cursor].line + Breaks(tokens[cursor].text) == tokens[cursor + 1].line {
        cursor := cursor + 1;
        return true;
      }
      return false;
    }

    method NextLine() returns (ok: bool)
      modifies this
      ensures ok == CanNextLine(tokens, old(cursor))
      ensures cursor == old(cursor) + if ok then 1 else 0
    {
      if cursor < 0 {
        cursor := cursor + 1;
        return true;
      }
      if cursor >= |tokens| {
        return false;
      }
      if cursor < |tokens| - 1 && (tokens[cursor].file != tokens[cursor + 1].file
                                   || tokens[cursor].line + Breaks(tokens[cursor].text) < tokens[cursor + 1].line) {
        cursor := cursor + 1;
        return true;
      }
      return false;
    }

    function Val(): string
      reads this
    {
      TextAt(tokens, cursor)
    }
  }

  /** Over any input: from a token, NextArg advances exactly when no line break lies between the end
      of that token and the start of the next one, and NextLine exactly when one does. */
  lemma {:induction false} ArgumentsEndAtLineBreaks(input: string, k: nat)
    requires k < |Lex(input)| - 1
    ensures var s := DropMark(input);
            var ls := Lexemes(s, 0, 1);
            && |ls| == |Lex(input)| && ls[k].stop <= ls[k + 1].start <= |s|
            && (CanNextArg(Lex(input), k) <==> Breaks(s[ls[k].stop..ls[k + 1].start]) == 0)
            && (CanNextLine(Lex(input), k) <==> Breaks(s[ls[k].stop..ls[k + 1].start]) > 0)
  {
    var s := DropMark(input);
    assert s[..0] == "";
    LexemesOrdered(s, 0, 1);
    var ls := Lexemes(s, 0, 1);
    var a, b := ls[k], ls[k + 1];
    assert WellPlaced(s, a) && WellPlaced(s, b) && a.stop <= b.start;
    assert s[..b.start] == s[..a.start] + s[a.start..a.stop] + s[a.stop..b.start];
    BreaksAppend(s[..a.start] + s[a.start..a.stop], s[a.stop..b.start]);
    BreaksAppend(s[..a.start], s[a.start..a.stop]);
    LexedFile(s, 0, 1, k);
    LexedFile(s, 0, 1, k + 1);
  }

  lemma {:induction false} LexedFile(s: string, pos: nat, line: nat, k: nat)
    requires pos <= |s| && k < |Lexemes(s, pos, line)|
    ensures Lexemes(s, pos, line)[k].token.file == ""
    decreases |s| - pos
  {
    ScanFile(s, pos, Fresh(line));
    if k > 0 {
      match Scan(s, pos, Fresh(line))
      case Found(_, next, nextLine) => LexedFile(s, next, nextLine, k - 1);
    }
  }

  lemma {:induction false} ScanFile(s: string, i: nat, st: ScanState)
    requires i <= |s|
    ensures Scan(s, i, st).Found? ==> Scan(s, i, st).lexeme.token.file == ""
    decreases |s| - i
  {
    if i < |s| && OneStep(st, s[i], i).More? {
      ScanFile(s, i + 1, OneStep(st, s[i], i).st);
    }
  }
}
