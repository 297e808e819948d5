/** The configuration lexer: words, quoted strings, comments and line counting. */
module Lexer {
  import opened Common

  /** `file` stays empty for every token the lexer itself produces. */
  datatype Token = Token(file: string, line: nat, text: string)

  /** A token together with the input range it was read from: from its first
      character (the opening quote, if any) up to, not including, its delimiter. */
  datatype Lexeme = Lexeme(token: Token, start: nat, stop: nat)

  /** The local variables of one run of the scanning loop. */
  datatype ScanState = ScanState(line: nat, text: string, comment: bool, quoted: bool, escaped: bool,
                                 start: nat, tokenLine: nat)

  datatype Step = More(st: ScanState) | Emit(stop: nat, line: nat)

  datatype Scanned = EndOfInput | Found(lexeme: Lexeme, pos: nat, line: nat)

  const BYTE_ORDER_MARK: char := '\U{FEFF}'

  /** White space as Unicode defines it. */
  predicate IsSpace(c: char) {
    || '\t' <= c <= '\r'
    || c == ' '
    || c == '\U{85}' || c == '\U{A0}' || c == '\U{1680}'
    || '\U{2000}' <= c <= '\U{200A}'
    || c == '\U{2028}' || c == '\U{2029}' || c == '\U{202F}' || c == '\U{205F}' || c == '\U{3000}'
  }

  function Breaks(s: string): nat {
    if s == "" then 0 else (if s[0] == '\n' then 1 else 0) + Breaks(s[1..])
  }

  lemma {:induction false} BreaksAppend(a: string, b: string)
    ensures Breaks(a + b) == Breaks(a) + Breaks(b)
  {
    if a == "" {
      assert a + b == b;
    } else {
      assert (a + b)[1..] == a[1..] + b;
      BreaksAppend(a[1..], b);
    }
  }

  /** What the loop does with the character `ch` at position `i`. */
  function OneStep(st: ScanState, ch: char, i: nat): Step {
    if st.quoted then
      if !st.escaped && ch == '\\' then More(st.(escaped := true))
      else if !st.escaped && ch == '"' then Emit(i + 1, st.line)
      else
        More(st.(line := st.line + if ch == '\n' then 1 else 0,
                 text := st.text + if st.escaped && ch != '"' then ['\\', ch] else [ch],
                 escaped := false))
    else if IsSpace(ch) then
      if ch == '\r' then More(st)
      else
        var line := st.line + if ch == '\n' then 1 else 0;
        if st.text != "" then Emit(i, line)
        else More(st.(line := line, comment := st.comment && ch != '\n'))
    else if st.comment || ch == '#' then More(st.(comment := true))
    else if st.text == "" then
      var begun := st.(start := i, tokenLine := st.line);
      More(if ch == '"' then begun.(quoted := true) else begun.(text := [ch]))
    else More(st.(text := st.text + [ch]))
  }

  function Scan(s: string, i: nat, st: ScanState): (r: Scanned)
    requires i <= |s|
    ensures r.Found? ==> i <= r.pos <= |s| && (i < r.pos || st.text != "")
    decreases |s| - i
  {
    if i == |s| then
      if st.text != "" then Found(Lexeme(Token("", st.tokenLine, st.text), st.start, i), i, st.line)
      else EndOfInput
    else
      match OneStep(st, s[i], i)
      case More(next) => Scan(s, i + 1, next)
      case Emit(stop, line) => Found(Lexeme(Token("", st.tokenLine, st.text), st.start, stop), i + 1, line)
  }

  ghost predicate Scans(s: string, i: nat, st: ScanState, found: Scanned) {
    i <= |s| && Scan(s, i, st) == found
  }

  /** The scan that starts at `i` gets to position `j`. */
  ghost predicate Reaches(s: string, i: nat, st: ScanState, j: nat, now: ScanState) {
    forall found :: Scans(s, j, now, found) ==> Scans(s, i, st, found)
  }

  lemma {:induction false} ReachesNext(s: string, i: nat, st: ScanState, j: nat, now: ScanState)
    requires Reaches(s, i, st, j, now) && j < |s|
    ensures match OneStep(now, s[j], j)
            case More(next) => Reaches(s, i, st, j + 1, next)
            case Emit(stop, line) => Scans(s, i, st, Found(Lexeme(Token("", now.tokenLine, now.text), now.start, stop), j + 1, line))
  {
    match OneStep(now, s[j], j)
    case More(next) =>
      forall found | Scans(s, j + 1, next, found) ensures Scans(s, i, st, found) {
        assert Scans(s, j, now, found);
      }
    case Emit(stop, line) =>
      assert Scans(s, j, now, Found(Lexeme(Token("", now.tokenLine, now.text), now.start, stop), j + 1, line));
  }

  lemma {:induction false} ReachesEnd(s: string, i: nat, st: ScanState, now: ScanState)
    requires Reaches(s, i, st, |s|, now)
    ensures Scans(s, i, st, if now.text != "" then Found(Lexeme(Token("", now.tokenLine, now.text), now.start, |s|), |s|, now.line) else EndOfInput)
  {
    assert Scans(s, |s|, now, Scan(s, |s|, now));
  }

  function Fresh(line: nat): ScanState {
    ScanState(line, "", false, false, false, 0, 0)
  }

  function Lexemes(s: string, pos: nat, line: nat): seq<Lexeme>
    requires pos <= |s|
    decreases |s| - pos
  {
    match Scan(s, pos, Fresh(line))
    case EndOfInput => []
    case Found(lexeme, next, nextLine) => [lexeme] + Lexemes(s, next, nextLine)
  }

  function TokensOf(ls: seq<Lexeme>): seq<Token> {
    seq(|ls|, i requires 0 <= i < |ls| => ls[i].token)
  }

  function DropMark(input: string): string {
    if input != "" && input[0] == BYTE_ORDER_MARK then input[1..] else input
  }

  function Lex(input: string): seq<Token> {
    TokensOf(Lexemes(DropMark(input), 0, 1))
  }

  // ---------------------------------------------------------------- the imperative lexer

  class Scanner {
    const input: string
    var pos: nat
    var line: nat
    var token: Token

    ghost predicate Valid()
      reads this
    {
      pos <= |input|
    }

    /** Loads the input, discarding a leading byte order mark. */
    constructor (source: string)
      ensures Valid() && line == 1
      ensures input == DropMark(source) && pos == 0
    {
      input := DropMark(source);
      pos := 0;
      line := 1;
      token := Token("", 0, "");
    }

    method Next() returns (ok: bool)
      requires Valid()
      modifies this
      ensures Valid()
      ensures match Scan(input, old(pos), Fresh(old(line)))
              case EndOfInput => !ok
              case Found(lexeme, next, nextLine) => ok && token == lexeme.token && pos == next && line == nextLine
    {
      var text := "";
      var tokenLine: nat := 0;
      var comment, quoted, escaped := false, false, false;
      ghost var start: nat := 0;
      ghost var from, begin := pos, Fresh(line);
      while pos < |input|
        invariant Valid()
        invariant Reaches(input, from, begin, pos, ScanState(line, text, comment, quoted, escaped, start, tokenLine))
      {
        var ch := input[pos];
        ReachesNext(input, from, begin, pos, ScanState(line, text, comment, quoted, escaped, start, tokenLine));
        pos := pos + 1;
        if quoted {
          if !escaped {
            if ch == '\\' {
              escaped := true;
              continue;
            } else if ch == '"' {
              token := Token("", tokenLine, text);
              return true;
            }
          }
          if ch == '\n' {
            line := line + 1;
          }
          if escaped && ch != '"' {
            text := text + ['\\', ch];
          } else {
            text := text + [ch];
          }
          escaped := false;
          continue;
        }
        if IsSpace(ch) {
          if ch == '\r' {
            continue;
          }
          if ch == '\n' {
            line := line + 1;
            comment := false;
          }
          if text != "" {
            token := Token("", tokenLine, text);
            return true;
          }
          continue;
        }
        if ch == '#' {
          comment := true;
        }
        if comment {
          continue;
        }
        if text == "" {
          tokenLine := line;
          start := pos - 1;
          if ch == '"' {
            quoted := true;
            continue;
          }
        }
        assert text == "" ==> text + [ch] == [ch];
        text := text + [ch];
      }
      ReachesEnd(input, from, begin, ScanState(line, text, comment, quoted, escaped, start, tokenLine));
      ok := text != "";
      if ok {
        token := Token("", tokenLine, text);
      }
    }
  }

  lemma {:induction false} LexemesFound(s: string, i: nat, line: nat, found: Scanned)
    requires i <= |s| && Scan(s, i, Fresh(line)) == found && found.Found?
    ensures TokensOf(Lexemes(s, i, line)) == [found.lexeme.token] + TokensOf(Lexemes(s, found.pos, found.line))
  {
    var all, tail := Lexemes(s, i, line), Lexemes(s, found.pos, found.line);
    assert all == [found.lexeme] + tail;
  }

  /** The tokens of the input are those collected and those that start at or after `from`, the first of which
      is the one scanned. */
  ghost predicate Collected(s: string, all: seq<Token>, tokens: seq<Token>, from: nat, fromLine: nat, scanned: Scanned) {
    && from <= |s| && scanned == Scan(s, from, Fresh(fromLine))
    && all == tokens + TokensOf(Lexemes(s, from, fromLine))
  }

  lemma {:induction false} CollectedNext(s: string, all: seq<Token>, tokens: seq<Token>, from: nat, fromLine: nat, scanned: Scanned)
    requires Collected(s, all, tokens, from, fromLine, scanned) && scanned.Found?
    ensures Collected(s, all, tokens + [scanned.lexeme.token], scanned.pos, scanned.line, Scan(s, scanned.pos, Fresh(scanned.line)))
  {
    LexemesFound(s, from, fromLine, scanned);
    ConcatAssoc(tokens, [scanned.lexeme.token], TokensOf(Lexemes(s, scanned.pos, scanned.line)));
  }

  lemma {:induction false} CollectedAll(s: string, all: seq<Token>, tokens: seq<Token>, from: nat, fromLine: nat)
    requires Collected(s, all, tokens, from, fromLine, EndOfInput)
    ensures tokens == all
  {
    assert TokensOf(Lexemes(s, from, fromLine)) == [];
  }

  method AllTokens(input: string) returns (tokens: seq<Token>)
    ensures tokens == Lex(input)
  {
    var scanner := new Scanner(input);
    tokens := [];
    ghost var s := scanner.input;
    ghost var from: nat, fromLine: nat := 0, 1;
    ghost var scanned := Scan(s, from, Fresh(fromLine));
    assert [] + Lex(input) == Lex(input);
    var more := scanner.Next();
    while more
      invariant scanner.Valid() && scanner.input == s && Collected(s, Lex(input), tokens, from, fromLine, scanned)
      invariant more == scanned.Found?
      invariant more ==> scanner.token == scanned.lexeme.token && scanner.pos == scanned.pos && scanner.line == scanned.line
      decreases |s| - from + (if more then 1 else 0)
    {
      CollectedNext(s, Lex(input), tokens, from, fromLine, scanned);
      tokens := tokens + [scanner.token];
      from, fromLine := scanner.pos, scanner.line;
      scanned := Scan(s, from, Fresh(fromLine));
      more := scanner.Next();
    }
    CollectedAll(s, Lex(input), tokens, from, fromLine);
  }

  // ---------------------------------------------------------------- comments

  /** A hash sign after the start of a token hides the rest of that word only: the token ends at the next
      white space, and whatever follows on the line is read as usual. */
  lemma {:induction false} HashInsideToken(s: string, i: nat, st: ScanState, j: nat)
    requires i <= j <= |s| && st.text != "" && st.comment && !st.quoted
    requires forall k :: i <= k < j ==> !IsSpace(s[k]) || s[k] == '\r'
    requires j < |s| ==> IsSpace(s[j]) && s[j] != '\r'
    ensures var found := Scan(s, i, st);
            found.Found? && found.lexeme.token.text == st.text && found.pos == if j < |s| then j + 1 else j
    decreases j - i
  {
    if i < j {
      assert OneStep(st, s[i], i) == More(st);
      HashInsideToken(s, i + 1, st, j);
    }
  }

  /** A hash sign before any token hides everything up to the end of the line. */
  lemma {:induction false} HashBeforeToken(s: string, i: nat, st: ScanState, j: nat)
    requires i <= j < |s| && st.text == "" && st.comment && !st.quoted && s[j] == '\n'
    requires forall k :: i <= k < j ==> s[k] != '\n'
    ensures Scan(s, i, st) == Scan(s, j + 1, st.(line := st.line + 1, comment := false))
    decreases j - i
  {
    if i < j {
      assert OneStep(st, s[i], i) == More(st);
      HashBeforeToken(s, i + 1, st, j);
    }
  }

  // ---------------------------------------------------------------- line numbers

  /** What the scanning loop keeps true: lines are counted from the input itself,
      and a token under construction holds every line break of its range. */
  ghost predicate LineInv(s: string, i: nat, st: ScanState)
    requires i <= |s|
  {
    && st.line == 1 + Breaks(s[..i])
    && (st.text != "" || st.quoted ==>
        && st.start < i
        && st.tokenLine == 1 + Breaks(s[..st.start])
        && Breaks(st.text) == Breaks(s[st.start..i]))
  }

  ghost predicate WellPlaced(s: string, l: Lexeme) {
    && l.start <= l.stop <= |s|
    && l.token.line == 1 + Breaks(s[..l.start])
    && Breaks(l.token.text) == Breaks(s[l.start..l.stop])
  }

  lemma {:induction false} BreaksStep(s: string, from: nat, i: nat)
    requires from <= i < |s|
    ensures Breaks(s[from..i + 1]) == Breaks(s[from..i]) + if s[i] == '\n' then 1 else 0
  {
    assert s[from..i + 1] == s[from..i] + [s[i]];
    BreaksAppend(s[from..i], [s[i]]);
  }

  ghost predicate StepOk(s: string, i: nat, st: ScanState, step: Step)
    requires i < |s|
  {
    match step
    case More(next) => LineInv(s, i + 1, next)
    case Emit(stop, line) =>
      && line == 1 + Breaks(s[..i + 1])
      && WellPlaced(s, Lexeme(Token("", st.tokenLine, st.text), st.start, stop))
      && i <= stop <= i + 1
  }

  lemma {:induction false} QuotedStepKeepsLines(s: string, i: nat, st: ScanState)
    requires i < |s| && LineInv(s, i, st) && st.quoted
    ensures StepOk(s, i, st, OneStep(st, s[i], i))
  {
    BreaksStep(s, 0, i);
    assert s[..i] == s[0..i] && s[..i + 1] == s[0..i + 1];
    BreaksStep(s, st.start, i);
    BreaksAppend(st.text, [s[i]]);
    BreaksAppend(st.text, ['\\', s[i]]);
    assert ['\\', s[i]][1..] == [s[i]];
  }

  /** Between tokens. */
  lemma {:induction false} EmptyStepKeepsLines(s: string, i: nat, st: ScanState)
    requires i < |s| && LineInv(s, i, st) && !st.quoted && st.text == ""
    ensures StepOk(s, i, st, OneStep(st, s[i], i))
  {
    BreaksStep(s, 0, i);
    assert s[..i] == s[0..i] && s[..i + 1] == s[0..i + 1];
    assert s[i..i + 1] == [s[i]] && [s[i]][1..] == "";
  }

  /** Inside an unquoted token. */
  lemma {:induction false} WordStepKeepsLines(s: string, i: nat, st: ScanState)
    requires i < |s| && LineInv(s, i, st) && !st.quoted && st.text != ""
    ensures StepOk(s, i, st, OneStep(st, s[i], i))
  {
    BreaksStep(s, 0, i);
    assert s[..i] == s[0..i] && s[..i + 1] == s[0..i + 1];
    BreaksStep(s, st.start, i);
    BreaksAppend(st.text, [s[i]]);
    assert [s[i]][1..] == "";
  }

  lemma {:induction false} StepKeepsLines(s: string, i: nat, st: ScanState)
    requires i < |s| && LineInv(s, i, st)
    ensures StepOk(s, i, st, OneStep(st, s[i], i))
  {
    if st.quoted {
      QuotedStepKeepsLines(s, i, st);
    } else if st.text == "" {
      EmptyStepKeepsLines(s, i, st);
    } else {
      WordStepKeepsLines(s, i, st);
    }
  }

  /** What a scan from here finds lies where it says it does. */
  ghost predicate FoundOk(s: string, i: nat, st: ScanState, scanned: Scanned) {
    scanned.Found? ==>
      && WellPlaced(s, scanned.lexeme) && scanned.pos <= |s| && scanned.line == 1 + Breaks(s[..scanned.pos])
      && scanned.lexeme.stop <= scanned.pos
      && (if st.text != "" || st.quoted then scanned.lexeme.start == st.start else i <= scanned.lexeme.start)
  }

  lemma {:induction false} FoundBefore(s: string, i: nat, st: ScanState, next: ScanState, scanned: Scanned)
    requires i < |s| && OneStep(st, s[i], i) == More(next) && FoundOk(s, i + 1, next, scanned)
    ensures FoundOk(s, i, st, scanned)
  {
  }

  lemma {:induction false} ScanKeepsLines(s: string, i: nat, st: ScanState)
    requires i <= |s| && LineInv(s, i, st)
    ensures FoundOk(s, i, st, Scan(s, i, st))
    decreases |s| - i
  {
    if i < |s| {
      StepKeepsLines(s, i, st);
      match OneStep(st, s[i], i)
      case More(next) =>
        ScanKeepsLines(s, i + 1, next);
        FoundBefore(s, i, st, next, Scan(s, i + 1, next));
      case Emit(_, _) =>
    }
  }

  /** Lexemes carry their true lines and lie one after another from `pos` on. */
  ghost predicate Ordered(s: string, pos: nat, ls: seq<Lexeme>) {
    && (forall k :: 0 <= k < |ls| ==> WellPlaced(s, ls[k]) && pos <= ls[k].start)
    && (forall k, m :: 0 <= k < m < |ls| ==> ls[k].stop <= ls[m].start)
  }

  lemma {:induction false} OrderedCons(s: string, pos: nat, next: nat, lexeme: Lexeme, tail: seq<Lexeme>)
    requires WellPlaced(s, lexeme) && pos <= lexeme.start && lexeme.stop <= next && pos <= next
    requires Ordered(s, next, tail)
    ensures Ordered(s, pos, [lexeme] + tail)
  {
    var ls := [lexeme] + tail;
    assert forall k :: 0 < k < |ls| ==> ls[k] == tail[k - 1];
  }

  lemma {:induction false} LexemesOrdered(s: string, pos: nat, line: nat)
    requires pos <= |s| && line == 1 + Breaks(s[..pos])
    ensures Ordered(s, pos, Lexemes(s, pos, line))
    decreases |s| - pos
  {
    ScanKeepsLines(s, pos, Fresh(line));
    match Scan(s, pos, Fresh(line))
    case EndOfInput =>
    case Found(lexeme, next, nextLine) =>
      LexemesOrdered(s, next, nextLine);
      OrderedCons(s, pos, next, lexeme, Lexemes(s, next, nextLine));
  }

  // ---------------------------------------------------------------- quoting and lexing back

  /** A text to be written quoted, and the white space that follows it. */
  datatype Piece = Piece(text: string, gap: string)

  ghost predicate Blank(gap: string) {
    forall i :: 0 <= i < |gap| ==> IsSpace(gap[i])
  }

  /** Quotes are the only characters that can be escaped. */
  function Escape(text: string): string {
    if text == "" then ""
    else (if text[0] == '"' then "\\\"" else [text[0]]) + Escape(text[1..])
  }

  function Quote(text: string): string {
    "\"" + Escape(text) + "\""
  }

  function Render(ps: seq<Piece>): string {
    if ps == [] then "" else Quote(ps[0].text) + ps[0].gap + Render(ps[1..])
  }

  function PieceTokens(ps: seq<Piece>, line: nat): seq<Token> {
    if ps == [] then []
    else
      var next := line + Breaks(ps[0].text) + Breaks(ps[0].gap);
      [Token("", line, ps[0].text)] + PieceTokens(ps[1..], next)
  }

  function Texts(ts: seq<Token>): seq<string> {
    seq(|ts|, i requires 0 <= i < |ts| => ts[i].text)
  }

  function PieceTexts(ps: seq<Piece>): seq<string> {
    seq(|ps|, i requires 0 <= i < |ps| => ps[i].text)
  }

  /** Length of the run of backslashes that ends just before position `i`. */
  function RunBefore(text: string, i: nat): nat
    requires i <= |text|
  {
    if i > 0 && text[i - 1] == '\\' then 1 + RunBefore(text, i - 1) else 0
  }

  /** Every backslash run that meets a quote or the end of the text has even length. */
  ghost predicate EvenRuns(text: string) {
    forall i :: 0 <= i <= |text| && (i == |text| || text[i] == '"') ==> RunBefore(text, i) % 2 == 0
  }

  /** The same condition, read left to right: no backslash is paired with a quote or left over. */
  predicate Paired(text: string) {
    if text == "" then true
    else if text[0] == '\\' then |text| > 1 && text[1] != '"' && Paired(text[2..])
    else Paired(text[1..])
  }

  lemma {:induction false} RunBeforeSuffix(text: string, k: nat, i: nat)
    requires k <= i <= |text|
    requires RunBefore(text, k) % 2 == 0
    ensures RunBefore(text[k..], i - k) % 2 == RunBefore(text, i) % 2
    decreases i
  {
    if k < i {
      assert text[k..][i - k - 1] == text[i - 1];
      RunBeforeSuffix(text, k, i - 1);
    }
  }

  lemma {:induction false} EvenRunsSuffix(text: string, k: nat)
    requires k <= |text| && RunBefore(text, k) % 2 == 0
    requires forall i :: 0 <= i < k && text[i] == '"' ==> RunBefore(text, i) % 2 == 0
    ensures EvenRuns(text) <==> EvenRuns(text[k..])
  {
    forall i | k <= i <= |text|
      ensures RunBefore(text[k..], i - k) % 2 == RunBefore(text, i) % 2
    {
      RunBeforeSuffix(text, k, i);
    }
    if EvenRuns(text[k..]) {
      forall i | 0 <= i <= |text| && (i == |text| || text[i] == '"')
        ensures RunBefore(text, i) % 2 == 0
      {
        if k <= i {
          assert i == |text| || text[k..][i - k] == '"';
        }
      }
    }
    if EvenRuns(text) {
      forall j | 0 <= j <= |text[k..]| && (j == |text[k..]| || text[k..][j] == '"')
        ensures RunBefore(text[k..], j) % 2 == 0
      {
        assert RunBefore(text[k..], j + k - k) % 2 == RunBefore(text, j + k) % 2;
      }
    }
  }

  lemma {:induction false} PairedIffEvenRuns(text: string)
    ensures Paired(text) <==> EvenRuns(text)
  {
    if text == "" {
    } else if text[0] == '\\' {
      assert RunBefore(text, 1) == 1;
      if |text| > 1 && text[1] != '"' {
        assert RunBefore(text, 2) == if text[1] == '\\' then 2 else 0;
        EvenRunsSuffix(text, 2);
        PairedIffEvenRuns(text[2..]);
      }
    } else {
      assert RunBefore(text, 1) == 0;
      EvenRunsSuffix(text, 1);
      PairedIffEvenRuns(text[1..]);
    }
  }

  /** How many characters of the text the scanner takes as one unit inside quotes. */
  function UnitSize(text: string): nat
    requires text != "" && (text[0] == '\\' ==> |text| > 1 && text[1] != '"')
  {
    if text[0] == '\\' then 2 else 1
  }

  function Grow(st: ScanState, more: string): ScanState {
    st.(line := st.line + Breaks(more), text := st.text + more)
  }

  lemma {:induction false} ScanOrdinary(s: string, i: nat, st: ScanState)
    requires i < |s| && st.quoted && !st.escaped && s[i] != '\\' && s[i] != '"'
    ensures Scan(s, i, st) == Scan(s, i + 1, Grow(st, [s[i]]))
  {
    assert Breaks([s[i]]) == if s[i] == '\n' then 1 else 0;
  }

  lemma {:induction false} ScanEscaped(s: string, i: nat, st: ScanState)
    requires i + 1 < |s| && st.quoted && !st.escaped && s[i] == '\\'
    ensures Scan(s, i, st) == Scan(s, i + 2, Grow(st, if s[i + 1] == '"' then ['"'] else ['\\', s[i + 1]]))
  {
    assert Scan(s, i, st) == Scan(s, i + 1, st.(escaped := true));
    assert ['\\', s[i + 1]][1..] == [s[i + 1]];
    assert Breaks([s[i + 1]]) == if s[i + 1] == '\n' then 1 else 0;
  }

  lemma {:induction false} AheadSplit(s: string, i: nat, a: string, b: string)
    requires i <= |s| && s[i..] == a + b
    ensures i + |a| <= |s| && s[i + |a|..] == b
    ensures forall k :: 0 <= k < |a| ==> s[i + k] == a[k]
  {
    assert s[i + |a|..] == s[i..][|a|..];
    forall k | 0 <= k < |a| ensures s[i + k] == a[k] {
      assert s[i + k] == s[i..][k];
    }
  }

  /** `unit` is what Escape writes for the text `back`, read by the scanner as a whole. */
  ghost predicate Unit(unit: string, back: string) {
    || (unit == "\\\"" && back == "\"")
    || (|unit| == 2 && unit[0] == '\\' && unit[1] != '"' && back == unit)
    || (|unit| == 1 && unit[0] != '\\' && unit[0] != '"' && back == unit)
  }

  lemma {:induction false} ScanUnit(s: string, i: nat, st: ScanState, unit: string, back: string, rest: string)
    requires i <= |s| && s[i..] == unit + rest && Unit(unit, back)
    requires st.quoted && !st.escaped
    ensures i + |unit| <= |s| && s[i + |unit|..] == rest
    ensures Scan(s, i, st) == Scan(s, i + |unit|, Grow(st, back))
  {
    AheadSplit(s, i, unit, rest);
    assert s[i + 0] == unit[0];
    if |unit| == 2 {
      assert s[i + 1] == unit[1];
      ScanEscaped(s, i, st);
      assert unit == ['\\', unit[1]];
    } else {
      ScanOrdinary(s, i, st);
      assert unit == [s[i]];
    }
  }

  /** Splits off the first unit of a text that lies ahead. */
  lemma {:induction false} FirstUnit(text: string, rest: string) returns (n: nat, unit: string)
    requires text != "" && (text[0] == '\\' ==> |text| > 1 && text[1] != '"')
    ensures n == UnitSize(text) && Unit(unit, text[..n])
    ensures Escape(text) == unit + Escape(text[n..])
    ensures Escape(text) + rest == unit + (Escape(text[n..]) + rest)
  {
    n := UnitSize(text);
    assert text[..1] == [text[0]];
    if n == 2 {
      unit := text[..2];
      assert unit == [text[0]] + [text[1]];
      assert text[1..][1..] == text[2..];
      assert Escape(text[1..]) == [text[1]] + Escape(text[2..]);
      ConcatAssoc([text[0]], [text[1]], Escape(text[2..]));
    } else {
      unit := if text[0] == '"' then "\\\"" else text[..1];
    }
    ConcatAssoc(unit, Escape(text[n..]), rest);
  }

  lemma {:induction false} GrowTwice(st: ScanState, text: string, n: nat)
    requires n <= |text|
    ensures Grow(Grow(st, text[..n]), text[n..]) == Grow(st, text)
  {
    assert text == text[..n] + text[n..];
    BreaksAppend(text[..n], text[n..]);
    assert st.text + text[..n] + text[n..] == st.text + text;
  }

  /** Inside quotes, a text whose backslashes pair up is read back whole, up to the closing quote. */
  lemma {:induction false} ScanPaired(s: string, i: nat, st: ScanState, text: string, rest: string)
    requires i <= |s| && s[i..] == Escape(text) + rest
    requires rest != "" && rest[0] == '"'
    requires st.quoted && !st.escaped && Paired(text)
    ensures var stop := i + |Escape(text)| + 1;
            && stop <= |s| && s[stop..] == rest[1..]
            && Scan(s, i, st) == Found(Lexeme(Token("", st.tokenLine, st.text + text), st.start, stop), stop,
                                       st.line + Breaks(text))
    decreases |text|
  {
    if text == "" {
      AheadSplit(s, i, rest, "");
      assert s[i + 0] == '"';
      assert s[i + 1..] == s[i..][1..];
      assert st.text + text == st.text;
    } else {
      var n, unit := FirstUnit(text, rest);
      ScanUnit(s, i, st, unit, text[..n], Escape(text[n..]) + rest);
      ScanPaired(s, i + |unit|, Grow(st, text[..n]), text[n..], rest);
      GrowTwice(st, text, n);
    }
  }

  /** Once a token has begun, the text read so far is never lost. */
  lemma {:induction false} ScanExtends(s: string, i: nat, st: ScanState)
    requires i <= |s| && st.text != ""
    ensures Scan(s, i, st).Found? && st.text <= Scan(s, i, st).lexeme.token.text
    decreases |s| - i
  {
    if i < |s| && OneStep(st, s[i], i).More? {
      ScanExtends(s, i + 1, OneStep(st, s[i], i).st);
    }
  }

  /** A text with an unpaired backslash is always read back as something else. */
  lemma {:induction false} ScanUnpaired(s: string, i: nat, st: ScanState, text: string, rest: string)
    requires i <= |s| && s[i..] == Escape(text) + rest
    requires rest != "" && rest[0] == '"'
    requires st.quoted && !st.escaped && !Paired(text)
    ensures Scan(s, i, st).Found? && Scan(s, i, st).lexeme.token.text != st.text + text
    decreases |text|
  {
    if text == "\\" {
      assert Escape(text) == "\\";
      assert s[i] == s[i..][0] == '\\' && s[i + 1] == s[i..][1] == '"';
      var after := Grow(st, ['"']);
      ScanEscaped(s, i, st);
      ScanExtends(s, i + 2, after);
      assert Scan(s, i, st).lexeme.token.text[|st.text|] == '"';
      assert (st.text + text)[|st.text|] == '\\';
    } else if text[0] == '\\' && text[1] == '"' {
      assert Escape(text) == "\\\\\"" + Escape(text[2..]) by {
        assert text[1..][1..] == text[2..];
      }
      assert s[i] == s[i..][0] == '\\' && s[i + 1] == s[i..][1] == '\\' && s[i + 2] == s[i..][2] == '"';
      var after := Grow(st, ['\\', '\\']);
      ScanEscaped(s, i, st);
      assert Scan(s, i, st).lexeme.token.text == after.text;
      assert after.text[|st.text| + 1] == '\\' && (st.text + text)[|st.text| + 1] == '"';
    } else {
      var n, unit := FirstUnit(text, rest);
      ScanUnit(s, i, st, unit, text[..n], Escape(text[n..]) + rest);
      ScanUnpaired(s, i + |unit|, Grow(st, text[..n]), text[n..], rest);
      GrowTwice(st, text, n);
    }
  }

  /** White space between tokens is skipped, counting its line breaks. */
  lemma {:induction false} ScanBlank(s: string, i: nat, line: nat, gap: string, rest: string)
    requires i <= |s| && s[i..] == gap + rest && Blank(gap)
    ensures i + |gap| <= |s|
    ensures Scan(s, i, Fresh(line)) == Scan(s, i + |gap|, Fresh(line + Breaks(gap)))
    decreases |gap|
  {
    if gap != "" {
      assert s[i] == s[i..][0] == gap[0];
      assert s[i + 1..] == s[i..][1..] == gap[1..] + rest;
      ScanBlank(s, i + 1, line + (if gap[0] == '\n' then 1 else 0), gap[1..], rest);
    }
  }

  lemma {:induction false} LexemesBlank(s: string, i: nat, line: nat, gap: string, rest: string)
    requires i <= |s| && s[i..] == gap + rest && Blank(gap)
    ensures i + |gap| <= |s| && s[i + |gap|..] == rest
    ensures Lexemes(s, i, line) == Lexemes(s, i + |gap|, line + Breaks(gap))
  {
    ScanBlank(s, i, line, gap, rest);
    AheadSplit(s, i, gap, rest);
  }

  /** A quoted text, scanned from its opening quote. */
  lemma {:induction false} ScanOpening(s: string, i: nat, line: nat, text: string, after: string) returns (st: ScanState, rest: string)
    requires i <= |s| && s[i..] == Quote(text) + after
    ensures i < |s| && s[i + 1..] == Escape(text) + rest
    ensures rest != "" && rest[0] == '"' && rest[1..] == after
    ensures st == Fresh(line).(quoted := true, start := i, tokenLine := line)
    ensures Scan(s, i, Fresh(line)) == Scan(s, i + 1, st)
  {
    st := Fresh(line).(quoted := true, start := i, tokenLine := line);
    rest := "\"" + after;
    AheadSplit(s, i, "\"", Escape(text) + rest);
    assert s[i + 0] == '"';
  }

  ghost predicate LexesAs(s: string, i: nat, line: nat, tokens: seq<Token>) {
    i <= |s| && TokensOf(Lexemes(s, i, line)) == tokens
  }

  /** From here on the text lexes as this token and then as it does from `next` on. */
  ghost predicate Begins(s: string, i: nat, line: nat, token: Token, next: nat, nextLine: nat) {
    forall tokens :: LexesAs(s, next, nextLine, tokens) ==> LexesAs(s, i, line, [token] + tokens)
  }

  /** One token, then blank space, then the rest. */
  lemma {:induction false} LexemesFoundBlank(s: string, i: nat, line: nat, found: Scanned, gap: string, rest: string)
    requires i <= |s| && Scan(s, i, Fresh(line)) == found && found.Found?
    requires s[found.pos..] == gap + rest && Blank(gap)
    ensures found.pos + |gap| <= |s| && s[found.pos + |gap|..] == rest
    ensures Begins(s, i, line, found.lexeme.token, found.pos + |gap|, found.line + Breaks(gap))
  {
    LexemesFound(s, i, line, found);
    LexemesBlank(s, found.pos, found.line, gap, rest);
  }

  lemma {:induction false} ScanQuoted(s: string, i: nat, line: nat, text: string, after: string) returns (found: Scanned)
    requires i <= |s| && s[i..] == Quote(text) + after && Paired(text)
    ensures found == Scan(s, i, Fresh(line)) && found.Found?
    ensures found.pos <= |s| && s[found.pos..] == after
    ensures found.lexeme.token == Token("", line, text) && found.line == line + Breaks(text)
  {
    var st, rest := ScanOpening(s, i, line, text, after);
    ScanPaired(s, i + 1, st, text, rest);
    found := Scan(s, i + 1, st);
    assert "" + text == text;
  }

  /** Lexing a quoted text that is paired: one token, then blank space, then the rest. */
  lemma {:induction false} LexQuoted(s: string, i: nat, line: nat, text: string, gap: string, rest: string) returns (next: nat, nextLine: nat)
    requires i <= |s| && s[i..] == Quote(text) + (gap + rest) && Blank(gap) && Paired(text)
    ensures next <= |s| && s[next..] == rest && nextLine == line + Breaks(text) + Breaks(gap)
    ensures Begins(s, i, line, Token("", line, text), next, nextLine)
  {
    var after := gap + rest;
    var found := ScanQuoted(s, i, line, text, after);
    LexemesFoundBlank(s, i, line, found, gap, rest);
    next, nextLine := found.pos + |gap|, found.line + Breaks(gap);
  }

  lemma {:induction false} RenderFirst(ps: seq<Piece>)
    requires ps != []
    ensures Render(ps) == Quote(ps[0].text) + (ps[0].gap + Render(ps[1..]))
  {
    ConcatAssoc(Quote(ps[0].text), ps[0].gap, Render(ps[1..]));
  }

  ghost predicate AllBlank(ps: seq<Piece>) {
    forall k :: 0 <= k < |ps| ==> Blank(ps[k].gap)
  }

  ghost predicate AllPaired(ps: seq<Piece>) {
    forall k :: 0 <= k < |ps| ==> Paired(ps[k].text)
  }

  ghost predicate AllEven(ps: seq<Piece>) {
    forall k :: 0 <= k < |ps| ==> EvenRuns(ps[k].text)
  }

  /** Paired texts, written quoted, lex back to exactly those texts on exactly those lines. */
  lemma {:induction false} LexRendered(s: string, i: nat, line: nat, ps: seq<Piece>)
    requires i <= |s| && s[i..] == Render(ps)
    requires AllBlank(ps) && AllPaired(ps)
    ensures LexesAs(s, i, line, PieceTokens(ps, line))
    decreases |ps|
  {
    if ps == [] {
      LexNothing(s, i, line);
    } else {
      RenderFirst(ps);
      var next, nextLine := LexQuoted(s, i, line, ps[0].text, ps[0].gap, Render(ps[1..]));
      RestRenderable(ps);
      LexRendered(s, next, nextLine, ps[1..]);
      FirstPieceToken(ps, line, nextLine, PieceTokens(ps[1..], nextLine));
    }
  }

  lemma {:induction false} FirstPieceToken(ps: seq<Piece>, line: nat, nextLine: nat, tail: seq<Token>)
    requires ps != [] && nextLine == line + Breaks(ps[0].text) + Breaks(ps[0].gap) && tail == PieceTokens(ps[1..], nextLine)
    ensures [Token("", line, ps[0].text)] + tail == PieceTokens(ps, line)
  {
  }

  lemma {:induction false} LexNothing(s: string, i: nat, line: nat)
    requires i <= |s| && s[i..] == []
    ensures TokensOf(Lexemes(s, i, line)) == []
  {
    assert i == |s|;
  }

  lemma {:induction false} RestRenderable(ps: seq<Piece>)
    requires ps != [] && AllBlank(ps) && AllPaired(ps)
    ensures AllBlank(ps[1..]) && AllPaired(ps[1..])
  {
    assert forall k :: 0 <= k < |ps| - 1 ==> ps[1..][k] == ps[k + 1];
  }

  lemma {:induction false} PieceTokenTexts(ps: seq<Piece>, line: nat)
    ensures Texts(PieceTokens(ps, line)) == PieceTexts(ps)
    decreases |ps|
  {
    if ps != [] {
      var next := line + Breaks(ps[0].text) + Breaks(ps[0].gap);
      PieceTokenTexts(ps[1..], next);
      var tail := PieceTokens(ps[1..], next);
      assert |tail| == |Texts(tail)| == |PieceTexts(ps[1..])| == |ps| - 1;
      assert forall k :: 0 <= k < |ps| - 1 ==> tail[k].text == Texts(tail)[k] == PieceTexts(ps[1..])[k] == ps[k + 1].text;
    }
  }

  /** If some text is not paired, the texts that come back are not the texts that were written. */
  lemma {:induction false} LexRenderedUnpaired(s: string, i: nat, line: nat, ps: seq<Piece>, bad: nat)
    requires i <= |s| && s[i..] == Render(ps) && bad < |ps| && !Paired(ps[bad].text)
    requires AllBlank(ps)
    ensures Texts(TokensOf(Lexemes(s, i, line))) != PieceTexts(ps)
    decreases |ps|
  {
    RenderFirst(ps);
    if !Paired(ps[0].text) {
      FirstUnpaired(s, i, line, ps[0].text, ps[0].gap + Render(ps[1..]), PieceTexts(ps));
    } else {
      var next, nextLine := LexQuoted(s, i, line, ps[0].text, ps[0].gap, Render(ps[1..]));
      LexRenderedUnpaired(s, next, nextLine, ps[1..], bad - 1);
      var tail := TokensOf(Lexemes(s, next, nextLine));
      assert LexesAs(s, next, nextLine, tail);
      OtherTexts(ps, Token("", line, ps[0].text), tail);
    }
  }

  lemma {:induction false} FirstUnpaired(s: string, i: nat, line: nat, text: string, after: string, texts: seq<string>)
    requires i <= |s| && s[i..] == Quote(text) + after && !Paired(text) && texts != [] && texts[0] == text
    ensures Texts(TokensOf(Lexemes(s, i, line))) != texts
  {
    var st, rest := ScanOpening(s, i, line, text, after);
    ScanUnpaired(s, i + 1, st, text, rest);
    assert "" + text == text;
    LexemesFound(s, i, line, Scan(s, i, Fresh(line)));
  }

  lemma {:induction false} OtherTexts(ps: seq<Piece>, first: Token, tail: seq<Token>)
    requires ps != [] && Texts(tail) != PieceTexts(ps[1..])
    ensures Texts([first] + tail) != PieceTexts(ps)
  {
    assert Texts([first] + tail)[1..] == Texts(tail);
    assert PieceTexts(ps)[1..] == PieceTexts(ps[1..]);
  }

  /** Quoting round trip, exactly: lexing returns the written texts if and only if in every text
      each backslash run before a quote or the end is even. */
  lemma {:induction false} QuoteRoundTrip(ps: seq<Piece>)
    requires AllBlank(ps)
    ensures Texts(Lex(Render(ps))) == PieceTexts(ps) <==> AllEven(ps)
    ensures AllEven(ps) ==> Lex(Render(ps)) == PieceTokens(ps, 1)
  {
    var s := Render(ps);
    assert DropMark(s) == s && s[0..] == s;
    forall k | 0 <= k < |ps|
      ensures Paired(ps[k].text) <==> EvenRuns(ps[k].text)
    {
      PairedIffEvenRuns(ps[k].text);
    }
    if AllPaired(ps) {
      LexRendered(s, 0, 1, ps);
      PieceTokenTexts(ps, 1);
    } else {
      var bad :| 0 <= bad < |ps| && !Paired(ps[bad].text);
      LexRenderedUnpaired(s, 0, 1, ps, bad);
    }
  }
}
