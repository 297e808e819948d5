/** E-mail addresses: splitting at the at-sign, quoting of the local part, and mailbox name validity
    (sections 4.1.2 of RFC 5321 and 3.3 of RFC 6531). Strings are sequences of characters, not bytes. */
module Address {
  import opened Common

  datatype AddressError = MissingAtSign | EmptyLocalPart | EmptyDomain
                        | AfterQuote | EscapeOutsideQuotes | ExtraAtSign

  // ---------------------------------------------------------------- splitting

  /** Unicode simple folding of the letters of "postmaster": an `s` also matches U+017F. */
  predicate FoldsTo(c: char, letter: char)
    requires 'a' <= letter <= 'z'
  {
    c == letter || c == 'A' + (letter - 'a') || (letter == 's' && c == '\U{017F}')
  }

  const POSTMASTER := "postmaster"

  predicate IsPostmaster(addr: string) {
    |addr| == |POSTMASTER| && forall i :: 0 <= i < |addr| ==> FoldsTo(addr[i], POSTMASTER[i])
  }

  /** The position of the last at-sign, or -1. */
  function LastAt(addr: string): (at: int)
    ensures -1 <= at < |addr|
    ensures at >= 0 ==> addr[at] == '@'
    ensures forall i :: at < i < |addr| ==> addr[i] != '@'
  {
    if addr == [] then -1
    else if Last(addr) == '@' then |addr| - 1
    else LastAt(Front(addr))
  }

  function Split(addr: string): Result<(string, string), AddressError> {
    if IsPostmaster(addr) then Ok((addr, ""))
    else
      var at := LastAt(addr);
      if at == -1 then Err(MissingAtSign)
      else if addr[..at] == "" then Err(EmptyLocalPart)
      else if addr[at + 1..] == "" then Err(EmptyDomain)
      else Ok((addr[..at], addr[at + 1..]))
  }

  /** Splitting yields exactly the two parts around the last at-sign, when neither is empty, and the
      whole of a bare "postmaster". */
  lemma {:induction false} SplitExactly(addr: string, mbox: string, domain: string)
    ensures Split(addr) == Ok((mbox, domain))
       <==> || (IsPostmaster(addr) && mbox == addr && domain == "")
            || (addr == mbox + "@" + domain && mbox != "" && domain != "" && '@' !in domain)
  {
    if IsPostmaster(addr) {
      assert forall i :: 0 <= i < |addr| ==> addr[i] != '@';
      assert (mbox + "@" + domain)[|mbox|] == '@';
    } else if addr == mbox + "@" + domain && '@' !in domain {
      var at := LastAt(addr);
      assert addr[|mbox|] == '@';
      assert forall i :: |mbox| < i < |addr| ==> addr[i] == domain[i - |mbox| - 1];
      assert at == |mbox| && addr[..at] == mbox && addr[at + 1..] == domain;
    } else {
      var at := LastAt(addr);
      if at >= 0 {
        assert addr == addr[..at] + "@" + addr[at + 1..];
      }
    }
  }

  // ---------------------------------------------------------------- quoting the local part

  predicate Special(c: char) {
    c in {'(', ')', '<', '>', '[', ']', ':', ';', '@', '\\', ',', '"', ' '}
  }

  predicate NeedsQuotes(mbox: string) {
    exists i :: 0 <= i < |mbox| && Special(mbox[i])
  }

  function Escape(mbox: string): string {
    if mbox == [] then []
    else (if mbox[0] == '\\' || mbox[0] == '"' then ['\\', mbox[0]] else [mbox[0]]) + Escape(mbox[1..])
  }

  function Quote(mbox: string): string {
    if NeedsQuotes(mbox) then "\"" + Escape(mbox) + "\"" else mbox
  }

  lemma {:induction false} EscapeAppend(a: string, c: char)
    ensures Escape(a + [c]) == Escape(a) + Escape([c])
  {
    if a == [] {
      assert a + [c] == [c];
    } else {
      assert (a + [c])[1..] == a[1..] + [c];
      EscapeAppend(a[1..], c);
    }
  }

  method QuoteMbox(mbox: string) returns (r: string)
    ensures r == Quote(mbox)
  {
    var escaped, quoted := "", false;
    var i := 0;
    while i < |mbox|
      invariant 0 <= i <= |mbox| && escaped == Escape(mbox[..i]) && quoted == NeedsQuotes(mbox[..i])
    {
      var c := mbox[i];
      assert mbox[..i + 1] == mbox[..i] + [c];
      EscapeAppend(mbox[..i], c);
      if Special(c) {
        if c == '\\' || c == '"' {
          escaped := escaped + ['\\'];
        }
        escaped := escaped + [c];
        assert mbox[..i + 1][i] == c;
        quoted := true;
      } else {
        escaped := escaped + [c];
        assert forall k :: 0 <= k < i ==> mbox[..i + 1][k] == mbox[..i][k];
      }
      i := i + 1;
    }
    assert mbox[..i] == mbox;
    return if quoted then "\"" + escaped + "\"" else mbox;
  }

  function Prepend(s: string, r: Result<string, AddressError>): Result<string, AddressError> {
    if r.Ok? then Ok(s + r.value) else r
  }

  /** What the text means outside quotes. */
  function Outside(s: string): Result<string, AddressError> {
    if s == [] then Ok([])
    else if s[0] == '"' then Inside(s[1..])
    else if s[0] == '\\' then Err(EscapeOutsideQuotes)
    else if s[0] == '@' then Err(ExtraAtSign)
    else Prepend([s[0]], Outside(s[1..]))
  }

  /** What the text means inside quotes. A missing closing quote and a last, lone backslash are let through. */
  function Inside(s: string): Result<string, AddressError> {
    if s == [] then Ok([])
    else if s[0] == '"' then AfterClosing(s[1..])
    else if s[0] == '\\' then EscapedNext(s[1..])
    else Prepend([s[0]], Inside(s[1..]))
  }

  function EscapedNext(s: string): Result<string, AddressError> {
    if s == [] then Ok([]) else Prepend([s[0]], Inside(s[1..]))
  }

  function AfterClosing(s: string): Result<string, AddressError> {
    if s == [] then Ok([]) else Err(AfterQuote)
  }

  function Unquote(mbox: string): Result<string, AddressError> {
    var r := Outside(mbox);
    if r == Ok([]) then Err(EmptyLocalPart) else r
  }

  /** What the rest of the text means when the scan has set these flags. */
  function Onwards(quoted: bool, escaped: bool, closed: bool, s: string): Result<string, AddressError> {
    if closed then AfterClosing(s)
    else if escaped then EscapedNext(s)
    else if quoted then Inside(s)
    else Outside(s)
  }

  lemma {:induction false} PrependNothing(r: Result<string, AddressError>)
    ensures Prepend("", r) == r
  {
    if r.Ok? {
      assert "" + r.value == r.value;
    }
  }

  lemma {:induction false} PrependTwice(a: string, b: string, r: Result<string, AddressError>)
    ensures Prepend(a, Prepend(b, r)) == Prepend(a + b, r)
  {
    if r.Ok? {
      ConcatAssoc(a, b, r.value);
    }
  }

  method UnquoteMbox(mbox: string) returns (r: Result<string, AddressError>)
    ensures r == Unquote(mbox)
  {
    var quoted, escaped, closed, mailbox := false, false, false, "";
    var i := 0;
    assert mbox[0..] == mbox;
    PrependNothing(Outside(mbox));
    while i < |mbox|
      invariant 0 <= i <= |mbox| && (escaped ==> quoted && !closed)
      invariant Outside(mbox) == Prepend(mailbox, Onwards(quoted, escaped, closed, mbox[i..]))
    {
      var c := mbox[i];
      assert mbox[i..][0] == c && mbox[i..][1..] == mbox[i + 1..];
      if closed {
        return Err(AfterQuote);
      }
      if c == '"' && !escaped {
        quoted := !quoted;
        closed := !quoted;
      } else if c == '\\' && !escaped {
        if !quoted {
          return Err(EscapeOutsideQuotes);
        }
        escaped := true;
      } else if c == '@' && !quoted {
        return Err(ExtraAtSign);
      } else {
        PrependTwice(mailbox, [c], Onwards(quoted, false, false, mbox[i + 1..]));
        escaped := false;
        mailbox := mailbox + [c];
      }
      i := i + 1;
    }
    assert mbox[i..] == [] && mailbox + [] == mailbox;
    return if |mailbox| == 0 then Err(EmptyLocalPart) else Ok(mailbox);
  }

  lemma {:induction false} EscapedIsRead(mbox: string)
    ensures Inside(Escape(mbox) + "\"") == Ok(mbox)
  {
    if mbox != [] {
      var rest := Escape(mbox[1..]) + "\"";
      EscapedIsRead(mbox[1..]);
      var s := Escape(mbox) + "\"";
      if mbox[0] == '\\' || mbox[0] == '"' {
        assert s[1..][1..] == rest;
      } else {
        assert s[1..] == rest;
      }
      assert [mbox[0]] + mbox[1..] == mbox;
    }
  }

  lemma {:induction false} PlainIsRead(mbox: string)
    requires !NeedsQuotes(mbox)
    ensures Outside(mbox) == Ok(mbox)
  {
    if mbox != [] {
      assert !Special(mbox[0]);
      assert forall i :: 0 <= i < |mbox[1..]| ==> mbox[1..][i] == mbox[i + 1];
      PlainIsRead(mbox[1..]);
      assert [mbox[0]] + mbox[1..] == mbox;
    }
  }

  /** Unquoting undoes quoting, for every local part but the empty one. */
  lemma {:induction false} UnquoteUndoesQuote(mbox: string)
    ensures Unquote(Quote(mbox)) == if mbox == "" then Err(EmptyLocalPart) else Ok(mbox)
  {
    if NeedsQuotes(mbox) {
      EscapedIsRead(mbox);
      assert Quote(mbox)[1..] == Escape(mbox) + "\"";
    } else {
      PlainIsRead(mbox);
    }
  }

  // ---------------------------------------------------------------- valid mailbox names

  predicate Control(c: char) {
    c < ' ' || c == '\U{7F}'
  }

  predicate ValidGraphic(c: char) {
    c in {'!', '#', '$', '%', '&', '\'', '*', '+', '-', '/', '=', '?', '^', '_', '`', '{', '|', '}', '~', '.'}
  }

  predicate ValidUnquoted(c: char) {
    ValidGraphic(c) || '0' <= c <= '9' || 'A' <= c <= 'Z' || 'a' <= c <= 'z' || c > '\U{7F}'
  }

  predicate ValidMailboxName(mbox: string) {
    if HasPrefix(mbox, "\"") then
      var raw := Unquote(mbox);
      raw.Ok? && forall i :: 0 <= i < |raw.value| ==> !Control(raw.value[i])
    else
      forall i :: 0 <= i < |mbox| ==> ValidUnquoted(mbox[i])
  }

  /** A quoted local part is a valid mailbox name exactly when it holds no control character. */
  lemma {:induction false} QuotedIsValidIff(mbox: string)
    ensures ValidMailboxName(Quote(mbox)) <==> forall i :: 0 <= i < |mbox| ==> !Control(mbox[i])
  {
    UnquoteUndoesQuote(mbox);
    if NeedsQuotes(mbox) {
      assert Quote(mbox)[0] == '"';
    } else {
      assert !HasPrefix(mbox, "\"") by {
        assert |mbox| > 0 ==> !Special(mbox[0]);
      }
      assert forall i :: 0 <= i < |mbox| ==> ValidUnquoted(mbox[i]) == !Control(mbox[i]);
    }
  }

  /** Length in UTF-8. */
  function Bytes(s: string): nat {
    if s == [] then 0
    else (if s[0] < '\U{80}' then 1 else if s[0] < '\U{800}' then 2 else if s[0] < '\U{10000}' then 3 else 4) + Bytes(s[1..])
  }

  /** No label, `run` bytes into the first one, is longer than 64 bytes. */
  predicate ShortLabels(ascii: string, run: nat) {
    run <= 64 && (ascii == [] || if ascii[0] == '.' then ShortLabels(ascii[1..], 0) else ShortLabels(ascii[1..], run + 1))
  }

  /** Conversion to the ASCII form of a domain is left to the caller. */
  predicate ValidDomain(domain: string, toASCII: string -> Option<string>) {
    && 0 < Bytes(domain) <= 255 && !HasPrefix(domain, ".") && !Contains(domain, "..")
    && toASCII(domain).Some? && ShortLabels(toASCII(domain).value, 0)
  }

  predicate Valid(addr: string, toASCII: string -> Option<string>) {
    var r := Split(addr);
    Bytes(addr) <= 320 && r.Ok? && (r.value.1 == "" || (ValidMailboxName(r.value.0) && ValidDomain(r.value.1, toASCII)))
  }

  // ---------------------------------------------------------------- the email_with_domain table

  function WithDomain(key: string, domain: string): string {
    Quote(key) + "@" + domain
  }

  ghost predicate ReadsBack(addr: string, key: string, domain: string) {
    exists mbox :: Split(addr) == Ok((mbox, domain)) && Unquote(mbox) == Ok(key)
  }

  /** The address built from a key and a domain splits and unquotes back to them exactly when neither is
      empty and the domain has no at-sign. */
  lemma {:induction false} WithDomainRoundTrip(key: string, domain: string)
    ensures ReadsBack(WithDomain(key, domain), key, domain) <==> key != "" && domain != "" && '@' !in domain
  {
    UnquoteUndoesQuote(key);
    SplitExactly(WithDomain(key, domain), Quote(key), domain);
    forall mbox | Split(WithDomain(key, domain)) == Ok((mbox, domain)) && Unquote(mbox) == Ok(key)
      ensures key != "" && domain != "" && '@' !in domain
    {
      SplitExactly(WithDomain(key, domain), mbox, domain);
      NotPostmaster(WithDomain(key, domain), |Quote(key)|);
      SameSplit(Quote(key), mbox, domain);
    }
    if key != "" && domain != "" && '@' !in domain {
      assert Split(WithDomain(key, domain)) == Ok((Quote(key), domain));
    }
  }

  lemma {:induction false} NotPostmaster(addr: string, at: nat)
    requires at < |addr| && addr[at] == '@'
    ensures !IsPostmaster(addr)
  {
  }

  lemma {:induction false} SameSplit(a: string, b: string, domain: string)
    requires a + "@" + domain == b + "@" + domain
    ensures a == b
  {
    var whole := a + "@" + domain;
    assert whole[..|a|] == a && whole[..|b|] == b;
  }

  method LookupMulti(domains: seq<string>, key: string) returns (emails: seq<string>)
    ensures |emails| == |domains| && forall i :: 0 <= i < |domains| ==> emails[i] == Quote(key) + "@" + domains[i]
    ensures forall i :: 0 <= i < |domains| ==> (ReadsBack(emails[i], key, domains[i]) <==> key != "" && domains[i] != "" && '@' !in domains[i])
  {
    var quoted := QuoteMbox(key);
    var results := new string[|domains|];
    var i := 0;
    while i < |domains|
      invariant 0 <= i <= |domains| && forall k :: 0 <= k < i ==> results[k] == WithDomain(key, domains[k])
    {
      results[i] := quoted + "@" + domains[i];
      i := i + 1;
    }
    emails := results[..];
    forall k | 0 <= k < |domains| ensures ReadsBack(emails[k], key, domains[k]) <==> key != "" && domains[k] != "" && '@' !in domains[k] {
      WithDomainRoundTrip(key, domains[k]);
    }
  }
}
