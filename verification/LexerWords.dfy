/** What the tokens of any input are, said of the input itself, and words written without quotes. */
module LexerWords {
  import opened Common
  import opened Lexer

  // ---------------------------------------------------------------- the reading of a text

  /** Ends an unquoted word. A carriage return does not. */
  predicate Delimits(c: char) {
    IsSpace(c) && c != '\r'
  }

  /** A word up to its first hash sign, without carriage returns. */
  function WordText(word: string): string {
    if word == "" || word[0] == '#' then ""
    else (if word[0] == '\r' then "" else [word[0]]) + WordText(word[1..])
  }

  /** What stands between quotes, read from after the opening one up to the closing one or the end: a
      backslash escapes a quote and stands for itself before anything else. */
  function InnerText(rest: string): string {
    if rest == "" || rest[0] == '"' then ""
    else if rest[0] != '\\' then [rest[0]] + InnerText(rest[1..])
    else if |rest| == 1 then ""
    else (if rest[1] == '"' then "\"" else rest[..2]) + InnerText(rest[2..])
  }

  /** How far the quotation goes, its closing quote included. */
  function InnerSize(rest: string): (n: nat)
    ensures n <= |rest|
  {
    if rest == "" then 0
    else if rest[0] == '"' then 1
    else if rest[0] != '\\' then 1 + InnerSize(rest[1..])
    else if |rest| == 1 then 1
    else 2 + InnerSize(rest[2..])
  }

  /** There is a closing quote. */
  predicate Closed(rest: string) {
    if rest == "" then false
    else if rest[0] == '"' then true
    else if rest[0] != '\\' then Closed(rest[1..])
    else |rest| > 1 && Closed(rest[2..])
  }

  predicate StartsToken(c: char) {
    !IsSpace(c) && c != '#'
  }

  /** White space, and hash signs with what follows on their line; the last line is not a comment. */
  predicate Quiet(gap: string, comment: bool) {
    if gap == "" then !comment
    else if IsSpace(gap[0]) then Quiet(gap[1..], comment && gap[0] != '\n')
    else (comment || gap[0] == '#') && Quiet(gap[1..], true)
  }

  /** The same up to the end of the text, which may hold an open quote with nothing in it. */
  predicate Silent(rest: string, comment: bool) {
    if rest == "" then true
    else if IsSpace(rest[0]) then Silent(rest[1..], comment && rest[0] != '\n')
    else if comment || rest[0] == '#' then Silent(rest[1..], true)
    else rest[0] == '"' && !Closed(rest[1..]) && InnerText(rest[1..]) == ""
  }

  /** An unquoted word goes up to the next white space other than a carriage return. */
  ghost predicate IsWord(s: string, l: Lexeme) {
    && l.start < l.stop <= |s| && StartsToken(s[l.start]) && s[l.start] != '"'
    && (forall k :: l.start <= k < l.stop ==> !Delimits(s[k]))
    && (l.stop < |s| ==> Delimits(s[l.stop]))
    && l.token.text == WordText(s[l.start..l.stop])
  }

  ghost predicate IsQuotation(s: string, l: Lexeme) {
    && l.start < |s| && s[l.start] == '"'
    && l.stop == l.start + 1 + InnerSize(s[l.start + 1..])
    && l.token.text == InnerText(s[l.start + 1..])
    && (Closed(s[l.start + 1..]) || l.token.text != "")
  }

  /** From `pos` on the text is made of these words and quotations, with nothing but space and comments
      before, between and after them. */
  ghost predicate ReadAs(s: string, pos: nat, ls: seq<Lexeme>)
    decreases |ls|
  {
    pos <= |s| &&
    if ls == [] then Silent(s[pos..], false)
    else
      && pos <= ls[0].start < ls[0].stop <= |s| && Quiet(s[pos..ls[0].start], false)
      && (IsWord(s, ls[0]) || IsQuotation(s, ls[0]))
      && ReadAs(s, ls[0].stop, ls[1..])
  }

  // ---------------------------------------------------------------- the scan finds it

  lemma {:induction false} ScansNext(s: string, i: nat, st: ScanState, next: ScanState, found: Scanned)
    requires i < |s| && OneStep(st, s[i], i) == More(next) && Scans(s, i + 1, next, found)
    ensures Scans(s, i, st, found)
  {
  }

  /** A token found, but for its line. */
  ghost predicate Yields(found: Scanned, start: nat, stop: nat, pos: nat, text: string) {
    && found.Found? && found.pos == pos && found.lexeme.start == start && found.lexeme.stop == stop
    && found.lexeme.token.text == text
  }

  /** The text of the word being read, up to `j`. */
  function WordSoFar(s: string, i: nat, st: ScanState, j: nat): string
    requires i <= j <= |s|
  {
    st.text + if st.comment then "" else WordText(s[i..j])
  }

  lemma {:induction false} WordStep(s: string, i: nat, st: ScanState, j: nat)
    requires i < j <= |s| && st.text != "" && !st.quoted && !Delimits(s[i])
    ensures var step := OneStep(st, s[i], i);
            && step.More? && step.st.text != "" && !step.st.quoted && step.st.start == st.start
            && step.st.line == st.line && step.st.tokenLine == st.tokenLine
            && WordSoFar(s, i + 1, step.st, j) == WordSoFar(s, i, st, j)
  {
    var rest := WordText(s[i + 1..j]);
    assert s[i..j][0] == s[i] && s[i..j][1..] == s[i + 1..j];
    if !st.comment && s[i] != '#' {
      if s[i] == '\r' {
        assert "" + rest == rest;
      } else {
        ConcatAssoc(st.text, [s[i]], rest);
      }
    }
  }

  lemma {:induction false} WordEnd(s: string, i: nat, st: ScanState) returns (found: Scanned)
    requires i <= |s| && st.text != "" && !st.quoted && (i < |s| ==> Delimits(s[i]))
    ensures Scans(s, i, st, found) && Yields(found, st.start, i, if i < |s| then i + 1 else i, WordSoFar(s, i, st, i))
    ensures found.lexeme.token == Token("", st.tokenLine, found.lexeme.token.text)
    ensures found.line == st.line + if i < |s| && s[i] == '\n' then 1 else 0
  {
    found := Scan(s, i, st);
    assert s[i..i] == "" && st.text + "" == st.text;
  }

  lemma {:induction false} ScanWord(s: string, i: nat, st: ScanState, j: nat) returns (found: Scanned)
    requires i <= j <= |s| && st.text != "" && !st.quoted
    requires (forall k :: i <= k < j ==> !Delimits(s[k])) && (j < |s| ==> Delimits(s[j]))
    ensures Scans(s, i, st, found) && Yields(found, st.start, j, if j < |s| then j + 1 else j, WordSoFar(s, i, st, j))
    ensures found.lexeme.token == Token("", st.tokenLine, found.lexeme.token.text)
    ensures found.line == st.line + if j < |s| && s[j] == '\n' then 1 else 0
    decreases j - i
  {
    if i == j {
      found := WordEnd(s, i, st);
    } else {
      WordStep(s, i, st, j);
      var next := OneStep(st, s[i], i).st;
      found := ScanWord(s, i + 1, next, j);
      ScansNext(s, i, st, next, found);
    }
  }

  /** What a scan inside quotes comes to. */
  ghost predicate Quotes(found: Scanned, start: nat, i: nat, text: string, rest: string) {
    if Closed(rest) || text + InnerText(rest) != "" then
      Yields(found, start, i + InnerSize(rest), i + InnerSize(rest), text + InnerText(rest))
    else found.EndOfInput?
  }

  /** One unit inside quotes, `back` for `size` characters. */
  lemma {:induction false} QuotesNext(found: Scanned, start: nat, i: nat, text: string, rest: string, size: nat, back: string)
    requires 0 < size <= |rest| && InnerText(rest) == back + InnerText(rest[size..]) && InnerSize(rest) == size + InnerSize(rest[size..])
    requires Closed(rest) == Closed(rest[size..]) && Quotes(found, start, i + size, text + back, rest[size..])
    ensures Quotes(found, start, i, text, rest)
  {
    ConcatAssoc(text, back, InnerText(rest[size..]));
  }

  lemma {:induction false} QuoteEnd(s: string, i: nat, st: ScanState) returns (found: Scanned)
    requires i <= |s| && st.quoted && !st.escaped && (i == |s| || s[i] == '"' || (s[i] == '\\' && i == |s| - 1))
    ensures Scans(s, i, st, found) && Quotes(found, st.start, i, st.text, s[i..])
  {
    found := Scan(s, i, st);
    assert st.text + "" == st.text;
    if i < |s| && s[i] == '\\' {
      assert found == Scan(s, i + 1, st.(escaped := true));
    }
  }

  lemma {:induction false} ScanInner(s: string, i: nat, st: ScanState) returns (found: Scanned)
    requires i <= |s| && st.quoted && !st.escaped
    ensures Scans(s, i, st, found) && Quotes(found, st.start, i, st.text, s[i..])
    decreases |s| - i
  {
    var rest := s[i..];
    if i == |s| || s[i] == '"' || (s[i] == '\\' && i == |s| - 1) {
      found := QuoteEnd(s, i, st);
    } else if s[i] == '\\' {
      var back := if s[i + 1] == '"' then ['"'] else ['\\', s[i + 1]];
      ScanEscaped(s, i, st);
      found := ScanInner(s, i + 2, Grow(st, back));
      assert rest[2..] == s[i + 2..] && rest[..2] == ['\\', s[i + 1]];
      QuotesNext(found, st.start, i, st.text, rest, 2, back);
    } else {
      ScanOrdinary(s, i, st);
      found := ScanInner(s, i + 1, Grow(st, [s[i]]));
      assert rest[1..] == s[i + 1..];
      QuotesNext(found, st.start, i, st.text, rest, 1, [s[i]]);
    }
  }

  /** What a scan between tokens comes to. */
  ghost predicate Finds(s: string, i: nat, comment: bool, found: Scanned) {
    i <= |s| &&
    if found.EndOfInput? then Silent(s[i..], comment)
    else
      var l := found.lexeme;
      && i <= l.start < l.stop <= found.pos <= |s| && Quiet(s[i..l.start], comment)
      && (IsWord(s, l) || IsQuotation(s, l))
      && (found.pos == l.stop || (found.pos == l.stop + 1 && IsSpace(s[l.stop])))
  }

  predicate Skipped(c: char, comment: bool) {
    IsSpace(c) || comment || c == '#'
  }

  lemma {:induction false} FindsNext(s: string, i: nat, comment: bool, found: Scanned)
    requires i < |s| && Skipped(s[i], comment)
    requires Finds(s, i + 1, if IsSpace(s[i]) then comment && s[i] != '\n' else true, found)
    ensures Finds(s, i, comment, found)
  {
    if found.EndOfInput? {
      assert s[i..][0] == s[i] && s[i..][1..] == s[i + 1..];
    } else {
      var gap := s[i..found.lexeme.start];
      assert gap[0] == s[i] && gap[1..] == s[i + 1..found.lexeme.start];
    }
  }

  /** The first place from `i` on where an unquoted word would end. */
  function WordStop(s: string, i: nat): (j: nat)
    requires i <= |s|
    ensures i <= j <= |s| && (forall k :: i <= k < j ==> !Delimits(s[k])) && (j < |s| ==> Delimits(s[j]))
    decreases |s| - i
  {
    if i == |s| || Delimits(s[i]) then i else WordStop(s, i + 1)
  }

  lemma {:induction false} ScanToken(s: string, i: nat, st: ScanState) returns (found: Scanned)
    requires i < |s| && st.text == "" && !st.quoted && !st.escaped && !Skipped(s[i], st.comment)
    ensures Scans(s, i, st, found) && Finds(s, i, st.comment, found)
  {
    var next := OneStep(st, s[i], i).st;
    if s[i] == '"' {
      found := ScanInner(s, i + 1, next);
      assert "" + InnerText(s[i + 1..]) == InnerText(s[i + 1..]);
      assert s[i..][1..] == s[i + 1..];
    } else {
      var j := WordStop(s, i + 1);
      found := ScanWord(s, i + 1, next, j);
      assert s[i..j][0] == s[i] && s[i..j][1..] == s[i + 1..j];
    }
    ScansNext(s, i, st, next, found);
    assert s[i..i] == "";
  }

  lemma {:induction false} ScanFinds(s: string, i: nat, st: ScanState) returns (found: Scanned)
    requires i <= |s| && st.text == "" && !st.quoted && !st.escaped
    ensures Scans(s, i, st, found) && Finds(s, i, st.comment, found)
    decreases |s| - i
  {
    if i == |s| {
      found := EndOfInput;
    } else if Skipped(s[i], st.comment) {
      var next := OneStep(st, s[i], i).st;
      found := ScanFinds(s, i + 1, next);
      ScansNext(s, i, st, next, found);
      FindsNext(s, i, st.comment, found);
    } else {
      found := ScanToken(s, i, st);
    }
  }

  lemma {:induction false} ReadAfterSpace(s: string, pos: nat, ls: seq<Lexeme>)
    requires pos < |s| && IsSpace(s[pos]) && ReadAs(s, pos + 1, ls)
    ensures ReadAs(s, pos, ls)
  {
    if ls == [] {
      assert s[pos..][0] == s[pos] && s[pos..][1..] == s[pos + 1..];
    } else {
      var gap := s[pos..ls[0].start];
      assert gap[0] == s[pos] && gap[1..] == s[pos + 1..ls[0].start];
    }
  }

  /** Over any text, the lexemes are a reading of it: what is outside of them is space and comments, an
      unquoted word has the text of its range up to the first hash sign, and a quotation what it quotes. */
  lemma {:induction false} LexemesRead(s: string, pos: nat, line: nat)
    requires pos <= |s|
    ensures ReadAs(s, pos, Lexemes(s, pos, line))
    decreases |s| - pos
  {
    var found := ScanFinds(s, pos, Fresh(line));
    if found.Found? {
      LexemesRead(s, found.pos, found.line);
      var tail := Lexemes(s, found.pos, found.line);
      if found.pos != found.lexeme.stop {
        ReadAfterSpace(s, found.lexeme.stop, tail);
      }
      ReadMore(s, pos, found.lexeme, tail);
    }
  }

  lemma {:induction false} ReadMore(s: string, pos: nat, l: Lexeme, tail: seq<Lexeme>)
    requires pos <= l.start < l.stop <= |s| && Quiet(s[pos..l.start], false) && (IsWord(s, l) || IsQuotation(s, l))
    requires ReadAs(s, l.stop, tail)
    ensures ReadAs(s, pos, [l] + tail)
  {
    assert ([l] + tail)[1..] == tail;
  }

  // ---------------------------------------------------------------- there is no other reading

  /** The same but for their lines. */
  ghost predicate Alike(a: Lexeme, b: Lexeme) {
    a.start == b.start && a.stop == b.stop && a.token.text == b.token.text
  }

  lemma {:induction false} QuietOnce(r: string, m: nat, n: nat, comment: bool)
    requires m < n < |r| && Quiet(r[..m], comment) && StartsToken(r[m])
    ensures !Quiet(r[..n], comment)
    decreases m
  {
    assert r[..n][0] == r[0] && r[..n][1..] == r[1..][..n - 1];
    if m > 0 {
      assert r[..m][0] == r[0] && r[..m][1..] == r[1..][..m - 1];
      QuietOnce(r[1..], m - 1, n - 1, if IsSpace(r[0]) then comment && r[0] != '\n' else true);
    }
  }

  lemma {:induction false} SilentOrToken(r: string, m: nat, comment: bool)
    requires m < |r| && Quiet(r[..m], comment) && StartsToken(r[m])
    ensures Silent(r, comment) <==> r[m] == '"' && !Closed(r[m + 1..]) && InnerText(r[m + 1..]) == ""
    decreases m
  {
    if m > 0 {
      assert r[..m][0] == r[0] && r[..m][1..] == r[1..][..m - 1];
      SilentOrToken(r[1..], m - 1, if IsSpace(r[0]) then comment && r[0] != '\n' else true);
      assert r[1..][m..] == r[m + 1..];
    }
  }

  lemma {:induction false} StopsByThen(s: string, a: Lexeme, b: Lexeme)
    requires a.start == b.start && IsWord(s, a) && IsWord(s, b)
    ensures a.stop <= b.stop
  {
  }

  lemma {:induction false} SameToken(s: string, a: Lexeme, b: Lexeme)
    requires a.start == b.start && (IsWord(s, a) || IsQuotation(s, a)) && (IsWord(s, b) || IsQuotation(s, b))
    ensures Alike(a, b)
  {
    if s[a.start] != '"' {
      StopsByThen(s, a, b);
      StopsByThen(s, b, a);
    }
  }

  lemma {:induction false} SameStart(s: string, pos: nat, a: Lexeme, b: Lexeme)
    requires pos <= a.start < |s| && pos <= b.start < |s| && StartsToken(s[a.start]) && StartsToken(s[b.start])
    requires Quiet(s[pos..a.start], false) && Quiet(s[pos..b.start], false)
    ensures a.start == b.start
  {
    var r, m, n := s[pos..], a.start - pos, b.start - pos;
    assert r[..m] == s[pos..a.start] && r[..n] == s[pos..b.start];
    if m < n {
      QuietOnce(r, m, n, false);
    } else if n < m {
      QuietOnce(r, n, m, false);
    }
  }

  lemma {:induction false} NotSilent(s: string, pos: nat, ls: seq<Lexeme>)
    requires ReadAs(s, pos, ls) && ls != []
    ensures !Silent(s[pos..], false)
  {
    var r, m := s[pos..], ls[0].start - pos;
    assert r[..m] == s[pos..ls[0].start] && r[m + 1..] == s[ls[0].start + 1..];
    SilentOrToken(r, m, false);
  }

  /** A text has one reading only. */
  lemma {:induction false} ReadingUnique(s: string, pos: nat, a: seq<Lexeme>, b: seq<Lexeme>)
    requires ReadAs(s, pos, a) && ReadAs(s, pos, b)
    ensures |a| == |b| && forall k :: 0 <= k < |a| ==> Alike(a[k], b[k])
    decreases |a|
  {
    if a == [] || b == [] {
      if a != [] {
        NotSilent(s, pos, a);
      }
      if b != [] {
        NotSilent(s, pos, b);
      }
    } else {
      SameStart(s, pos, a[0], b[0]);
      SameToken(s, a[0], b[0]);
      ReadingUnique(s, a[0].stop, a[1..], b[1..]);
      forall k | 0 <= k < |a| ensures Alike(a[k], b[k]) {
        assert k > 0 ==> a[k] == a[1..][k - 1] && b[k] == b[1..][k - 1];
      }
    }
  }

  // ---------------------------------------------------------------- nothing is read that is not there

  function Occurrences(s: string, c: char): nat {
    if s == "" then 0 else (if s[0] == c then 1 else 0) + Occurrences(s[1..], c)
  }

  lemma {:induction false} OccursConcat(a: string, b: string, c: char)
    ensures Occurrences(a + b, c) == Occurrences(a, c) + Occurrences(b, c)
  {
    if a == "" {
      assert a + b == b;
    } else {
      assert (a + b)[1..] == a[1..] + b;
      OccursConcat(a[1..], b, c);
    }
  }

  lemma {:induction false} WordTextKeeps(word: string, c: char)
    ensures Occurrences(WordText(word), c) <= Occurrences(word, c)
  {
    if word != "" && word[0] != '#' {
      WordTextKeeps(word[1..], c);
      OccursConcat(if word[0] == '\r' then "" else [word[0]], WordText(word[1..]), c);
    }
  }

  lemma {:induction false} InnerTextKeeps(rest: string, c: char)
    ensures Occurrences(InnerText(rest), c) <= Occurrences(rest[..InnerSize(rest)], c)
  {
    var n := InnerSize(rest);
    if rest == "" || rest[0] == '"' {
    } else if rest[0] != '\\' {
      InnerTextKeeps(rest[1..], c);
      OccursConcat([rest[0]], InnerText(rest[1..]), c);
      assert rest[..n][1..] == rest[1..][..n - 1];
    } else if |rest| > 1 {
      InnerTextKeeps(rest[2..], c);
      var back := if rest[1] == '"' then "\"" else rest[..2];
      OccursConcat(back, InnerText(rest[2..]), c);
      assert rest[..n] == rest[..2] + rest[2..][..n - 2];
      OccursConcat(rest[..2], rest[2..][..n - 2], c);
      assert rest[..2][1..] == [rest[1]];
    }
  }

  /** A quotation has a quote that its text has not. */
  lemma {:induction false} TokenKeeps(s: string, l: Lexeme, c: char)
    requires l.stop <= |s| && (IsWord(s, l) || IsQuotation(s, l))
    ensures Occurrences(l.token.text, c) + (if c == '"' && s[l.start] == '"' then 1 else 0) <= Occurrences(s[l.start..l.stop], c)
  {
    var range := s[l.start..l.stop];
    if s[l.start] != '"' {
      WordTextKeeps(range, c);
    } else {
      var rest := s[l.start + 1..];
      InnerTextKeeps(rest, c);
      assert range[1..] == rest[..InnerSize(rest)];
    }
  }

  function TextsHold(ls: seq<Lexeme>, c: char): nat {
    if ls == [] then 0 else Occurrences(ls[0].token.text, c) + TextsHold(ls[1..], c)
  }

  ghost predicate NoQuotation(s: string, ls: seq<Lexeme>) {
    forall k :: 0 <= k < |ls| ==> IsWord(s, ls[k])
  }

  lemma {:induction false} OccursAfter(s: string, pos: nat, start: nat, stop: nat, c: char)
    requires pos <= start <= stop <= |s|
    ensures Occurrences(s[start..stop], c) + Occurrences(s[stop..], c) <= Occurrences(s[pos..], c)
  {
    var gap, range, rest := s[pos..start], s[start..stop], s[stop..];
    assert s[pos..] == gap + (range + rest);
    OccursConcat(gap, range + rest, c);
    OccursConcat(range, rest, c);
  }

  lemma {:induction false} ReadingKeeps(s: string, pos: nat, ls: seq<Lexeme>, c: char)
    requires ReadAs(s, pos, ls)
    ensures TextsHold(ls, c) + (if c == '"' then Openings(s, ls) else 0) <= Occurrences(s[pos..], c)
    decreases |ls|
  {
    if ls != [] {
      ReadingKeeps(s, ls[0].stop, ls[1..], c);
      TokenKeeps(s, ls[0], c);
      OccursAfter(s, pos, ls[0].start, ls[0].stop, c);
    }
  }

  /** How many of them are quotations. */
  function Openings(s: string, ls: seq<Lexeme>): nat {
    if ls == [] then 0 else (if ls[0].start < |s| && s[ls[0].start] == '"' then 1 else 0) + Openings(s, ls[1..])
  }

  lemma {:induction false} OnlyWords(s: string, pos: nat, ls: seq<Lexeme>)
    requires ReadAs(s, pos, ls) && Openings(s, ls) == 0
    ensures NoQuotation(s, ls)
    decreases |ls|
  {
    if ls != [] {
      OnlyWords(s, ls[0].stop, ls[1..]);
      forall k | 0 <= k < |ls| ensures IsWord(s, ls[k]) {
        assert k > 0 ==> ls[k] == ls[1..][k - 1];
      }
    }
  }

  // ---------------------------------------------------------------- words written as they are

  /** Neither quoted nor cut: no white space, no hash sign, no quote at the front. */
  ghost predicate PlainWord(w: string) {
    w != "" && w[0] != '"' && forall i :: 0 <= i < |w| ==> StartsToken(w[i])
  }

  function RenderWords(ps: seq<Piece>): string {
    if ps == [] then "" else ps[0].text + (ps[0].gap + RenderWords(ps[1..]))
  }

  ghost predicate Parts(gap: string) {
    exists i :: 0 <= i < |gap| && Delimits(gap[i])
  }

  /** White space after every word, more than carriage returns unless it is the last. */
  ghost predicate Separated(ps: seq<Piece>) {
    AllBlank(ps) && forall k :: 0 <= k < |ps| - 1 ==> Parts(ps[k].gap)
  }

  /** All words are plain, and the text does not begin with a byte order mark. */
  ghost predicate PlainWords(ps: seq<Piece>) {
    && (forall k :: 0 <= k < |ps| ==> PlainWord(ps[k].text))
    && (ps != [] ==> ps[0].text[0] != BYTE_ORDER_MARK)
  }

  lemma {:induction false} PlainWordText(w: string, more: string)
    requires forall i :: 0 <= i < |w| ==> StartsToken(w[i])
    requires forall i :: 0 <= i < |more| ==> more[i] == '\r'
    ensures WordText(w + more) == w && Breaks(w) == 0
  {
    if w == "" {
      assert w + more == more;
      ReturnsOnly(more);
    } else {
      assert (w + more)[1..] == w[1..] + more;
      PlainWordText(w[1..], more);
      assert w == [w[0]] + w[1..];
    }
  }

  lemma {:induction false} ReturnsOnly(more: string)
    requires forall i :: 0 <= i < |more| ==> more[i] == '\r'
    ensures WordText(more) == "" && Breaks(more) == 0
  {
    if more != "" {
      ReturnsOnly(more[1..]);
    }
  }

  /** Where the first delimiter of a gap is, or its end. */
  function Returns(gap: string): (n: nat)
    ensures n <= |gap| && (forall i :: 0 <= i < n ==> !Delimits(gap[i])) && (n < |gap| ==> Delimits(gap[n]))
  {
    if gap == "" || Delimits(gap[0]) then 0 else 1 + Returns(gap[1..])
  }

  /** A plain word ahead goes up to the first delimiter of the gap after it. */
  lemma {:induction false} PlainAhead(s: string, i: nat, w: string, gap: string, rest: string, j: nat)
    requires i <= |s| && s[i..] == w + (gap + rest) && PlainWord(w) && Blank(gap) && (Parts(gap) || rest == "")
    requires j == i + |w| + Returns(gap)
    ensures i < j <= |s| && s[i] == w[0] && WordText(s[i..j]) == w
    ensures forall k :: i <= k < j ==> !Delimits(s[k])
    ensures if Returns(gap) < |gap| then j < |s| && s[j] == gap[Returns(gap)] else j == |s|
  {
    var n := Returns(gap);
    var all := w + (gap + rest);
    assert |s| == i + |all| && forall k :: i <= k < |s| ==> s[k] == all[k - i];
    assert s[i..j] == w + gap[..n];
    PlainWordText(w, gap[..n]);
  }

  /** What is left of a gap behind its first delimiter. */
  function AfterDelimiter(gap: string): (more: string)
    ensures |more| <= |gap| && more == gap[|gap| - |more|..]
  {
    var n := Returns(gap);
    if n < |gap| then gap[n + 1..] else ""
  }

  lemma {:induction false} BreaksOfGap(gap: string, n: nat)
    requires Blank(gap) && n == Returns(gap)
    ensures Breaks(gap) == if n < |gap| then (if gap[n] == '\n' then 1 else 0) + Breaks(gap[n + 1..]) else 0
  {
    ReturnsOnly(gap[..n]);
    assert gap == gap[..n] + gap[n..];
    BreaksAppend(gap[..n], gap[n..]);
    assert n < |gap| ==> gap[n..][1..] == gap[n + 1..];
  }

  /** A plain word, scanned from its first character. */
  lemma {:induction false} ScanPlain(s: string, i: nat, line: nat, w: string, gap: string, rest: string) returns (found: Scanned)
    requires i <= |s| && s[i..] == w + (gap + rest) && PlainWord(w) && Blank(gap) && (Parts(gap) || rest == "")
    ensures Scans(s, i, Fresh(line), found) && found.Found? && found.lexeme.token == Token("", line, w)
    ensures found.pos == i + |w| + |gap| - |AfterDelimiter(gap)| <= |s| && found.line + Breaks(AfterDelimiter(gap)) == line + Breaks(gap)
  {
    BreaksOfGap(gap, Returns(gap));
    var j := i + |w| + Returns(gap);
    PlainAhead(s, i, w, gap, rest, j);
    var st := Fresh(line).(text := [s[i]], start := i, tokenLine := line);
    found := ScanWord(s, i + 1, st, j);
    ScansNext(s, i, Fresh(line), st, found);
    assert s[i..j][0] == s[i] && s[i..j][1..] == s[i + 1..j];
  }

  lemma {:induction false} LexPlain(s: string, i: nat, line: nat, w: string, gap: string, rest: string) returns (next: nat, nextLine: nat)
    requires i <= |s| && s[i..] == w + (gap + rest) && PlainWord(w) && Blank(gap) && (Parts(gap) || rest == "")
    ensures next <= |s| && s[next..] == rest && nextLine == line + Breaks(w) + Breaks(gap)
    ensures Begins(s, i, line, Token("", line, w), next, nextLine)
  {
    var more := AfterDelimiter(gap);
    var found := ScanPlain(s, i, line, w, gap, rest);
    GapAhead(s, i, w, gap, rest, found.pos, more);
    next, nextLine := BlankAhead(s, i, line, found, more, rest);
    NoBreaks(w);
  }

  lemma {:induction false} BlankAhead(s: string, i: nat, line: nat, found: Scanned, more: string, rest: string) returns (next: nat, nextLine: nat)
    requires Scans(s, i, Fresh(line), found) && found.Found? && s[found.pos..] == more + rest && Blank(more)
    ensures next <= |s| && s[next..] == rest && nextLine == found.line + Breaks(more)
    ensures Begins(s, i, line, found.lexeme.token, next, nextLine)
  {
    LexemesFoundBlank(s, i, line, found, more, rest);
    next, nextLine := found.pos + |more|, found.line + Breaks(more);
  }

  lemma {:induction false} NoBreaks(w: string)
    requires forall i :: 0 <= i < |w| ==> StartsToken(w[i])
    ensures Breaks(w) == 0
  {
    PlainWordText(w, "");
  }

  lemma {:induction false} GapAhead(s: string, i: nat, w: string, gap: string, rest: string, pos: nat, more: string)
    requires i <= |s| && s[i..] == w + (gap + rest) && |more| <= |gap| && more == gap[|gap| - |more|..]
    requires pos == i + |w| + |gap| - |more|
    ensures pos <= |s| && s[pos..] == more + rest
  {
    var all := w + (gap + rest);
    assert s[pos..] == s[i..][pos - i..] == all[|w| + |gap| - |more|..];
  }

  lemma {:induction false} LexWords(s: string, i: nat, line: nat, ps: seq<Piece>)
    requires i <= |s| && s[i..] == RenderWords(ps) && Separated(ps) && forall k :: 0 <= k < |ps| ==> PlainWord(ps[k].text)
    ensures LexesAs(s, i, line, PieceTokens(ps, line))
    decreases |ps|
  {
    if ps == [] {
      LexNothing(s, i, line);
    } else {
      assert |ps| == 1 ==> RenderWords(ps[1..]) == "";
      var next, nextLine := LexPlain(s, i, line, ps[0].text, ps[0].gap, RenderWords(ps[1..]));
      assert forall k :: 0 <= k < |ps| - 1 ==> ps[1..][k] == ps[k + 1];
      LexWords(s, next, nextLine, ps[1..]);
      FirstPieceToken(ps, line, nextLine, PieceTokens(ps[1..], nextLine));
    }
  }

  lemma {:induction false} WordTextPlain(word: string)
    requires forall k :: 0 <= k < |word| ==> !Delimits(word[k])
    ensures forall i :: 0 <= i < |WordText(word)| ==> StartsToken(WordText(word)[i])
  {
    if word != "" && word[0] != '#' {
      WordTextPlain(word[1..]);
    }
  }

  /** The text of an unquoted word is always plain. */
  lemma {:induction false} WordIsPlain(s: string, l: Lexeme)
    requires IsWord(s, l)
    ensures PlainWord(l.token.text) && l.token.text[0] == s[l.start]
  {
    WordTextPlain(s[l.start..l.stop]);
  }

  lemma {:induction false} BlankHolds(gap: string, c: char)
    requires Blank(gap) && !IsSpace(c)
    ensures Occurrences(gap, c) == 0
  {
    if gap != "" {
      BlankHolds(gap[1..], c);
    }
  }

  lemma {:induction false} WordsHold(ls: seq<Lexeme>, ps: seq<Piece>, c: char)
    requires AllBlank(ps) && Texts(TokensOf(ls)) == PieceTexts(ps) && !IsSpace(c)
    ensures TextsHold(ls, c) == Occurrences(RenderWords(ps), c)
    decreases |ps|
  {
    assert |ls| == |Texts(TokensOf(ls))| == |ps|;
    if ps != [] {
      assert ls[0].token.text == Texts(TokensOf(ls))[0] == ps[0].text;
      assert Texts(TokensOf(ls[1..])) == Texts(TokensOf(ls))[1..] == PieceTexts(ps)[1..] == PieceTexts(ps[1..]);
      WordsHold(ls[1..], ps[1..], c);
      BlankHolds(ps[0].gap, c);
      OccursConcat(ps[0].gap, RenderWords(ps[1..]), c);
      OccursConcat(ps[0].text, ps[0].gap + RenderWords(ps[1..]), c);
    }
  }

  lemma {:induction false} OnlyPlainWords(ps: seq<Piece>)
    requires AllBlank(ps) && Texts(Lex(RenderWords(ps))) == PieceTexts(ps)
    ensures PlainWords(ps)
  {
    var raw := RenderWords(ps);
    var s := DropMark(raw);
    var ls := Lexemes(s, 0, 1);
    LexemesRead(s, 0, 1);
    assert s[0..] == s;
    WordsHold(ls, ps, '"');
    WordsHold(ls, ps, BYTE_ORDER_MARK);
    ReadingKeeps(s, 0, ls, '"');
    OnlyWords(s, 0, ls);
    ReadingKeeps(s, 0, ls, BYTE_ORDER_MARK);
    assert |ls| == |Texts(TokensOf(ls))| == |ps|;
    forall k | 0 <= k < |ps| ensures PlainWord(ps[k].text) {
      assert ls[k].token.text == Texts(TokensOf(ls))[k] == ps[k].text;
      WordIsPlain(s, ls[k]);
    }
    assert ps != [] ==> raw[0] == ps[0].text[0];
  }

  /** Words written as they are, with white space after each, lex back to the same words if and only if they
      are plain and no byte order mark stands at the front; then tokens and lines are exact. */
  lemma {:induction false} WordsRoundTrip(ps: seq<Piece>)
    requires Separated(ps)
    ensures Texts(Lex(RenderWords(ps))) == PieceTexts(ps) <==> PlainWords(ps)
    ensures PlainWords(ps) ==> Lex(RenderWords(ps)) == PieceTokens(ps, 1)
  {
    if PlainWords(ps) {
      var s := RenderWords(ps);
      assert ps != [] ==> s[0] == ps[0].text[0];
      assert DropMark(s) == s && s[0..] == s;
      LexWords(s, 0, 1, ps);
      PieceTokenTexts(ps, 1);
    }
    if Texts(Lex(RenderWords(ps))) == PieceTexts(ps) {
      OnlyPlainWords(ps);
    }
  }
}
