/** DMARC: identifier alignment and the policy it leads to (sections 3.1, 6.3 and 6.6.2 of RFC 7489). */
module Dmarc {
  import opened Common

  /** The value of an authentication result; `Unset` is the empty string. */
  datatype Value = Unset | NoResult | Pass | Fail | TempError | PermError | OtherValue(text: string)

  datatype AuthResult =
    | Dkim(value: Value, domain: string)
    | Spf(value: Value, from: string, helo: string)
    | OtherResult(text: string)

  datatype Mode = Strict | Relaxed

  datatype Policy = PolicyNone | PolicyQuarantine | PolicyReject

  datatype Record = Record(dkimMode: Mode, spfMode: Mode, policy: Policy, subdomainPolicy: Option<Policy>,
                           percent: Option<nat>)

  /** Domain knowledge that comes from outside: case folding and the public suffix list. */
  datatype Domains = Domains(fold: string -> string, publicSuffix: string -> string, orgDomain: string -> Option<string>)

  datatype Evaluation = Evaluation(value: Value, spf: Option<AuthResult>, spfAligned: bool,
                                   dkim: Option<AuthResult>, dkimAligned: bool)

  predicate EqualFold(d: Domains, a: string, b: string) {
    d.fold(a) == d.fold(b)
  }

  predicate IsAligned(d: Domains, fromDomain: string, authDomain: string, mode: Mode) {
    if mode == Strict || EqualFold(d, fromDomain, d.publicSuffix(fromDomain)) then EqualFold(d, fromDomain, authDomain)
    else
      match (d.orgDomain(fromDomain), d.orgDomain(authDomain))
      case (Some(a), Some(b)) => EqualFold(d, a, b)
      case _ => false
  }

  // ---------------------------------------------------------------- what the results say

  predicate DkimAligns(d: Domains, fromDomain: string, rec: Record, r: AuthResult) {
    r.Dkim? && IsAligned(d, fromDomain, r.domain, rec.dkimMode)
  }

  predicate SpfAligns(d: Domains, fromDomain: string, rec: Record, r: AuthResult) {
    r.Spf? && IsAligned(d, fromDomain, if r.from == "" then r.helo else r.from, rec.spfMode)
  }

  predicate AlignedDkimPass(d: Domains, fromDomain: string, rec: Record, results: seq<AuthResult>) {
    exists i :: 0 <= i < |results| && DkimAligns(d, fromDomain, rec, results[i]) && results[i].value == Pass
  }

  predicate AlignedDkimTempError(d: Domains, fromDomain: string, rec: Record, results: seq<AuthResult>) {
    exists i :: 0 <= i < |results| && DkimAligns(d, fromDomain, rec, results[i]) && results[i].value == TempError
  }

  predicate AlignedSpfPass(d: Domains, fromDomain: string, rec: Record, results: seq<AuthResult>) {
    exists i :: 0 <= i < |results| && SpfAligns(d, fromDomain, rec, results[i]) && results[i].value == Pass
  }

  predicate DkimPresent(results: seq<AuthResult>) {
    exists i :: 0 <= i < |results| && results[i].Dkim?
  }

  function LastSpf(results: seq<AuthResult>): (r: Option<AuthResult>)
    ensures r.Some? ==> r.value.Spf? && r.value in results
    ensures r.None? ==> forall x :: x in results ==> !x.Spf?
  {
    if results == [] then None
    else if Last(results).Spf? then Some(Last(results))
    else LastSpf(Front(results))
  }

  /** The DKIM result reported for reference: an aligned one replaces any other, and any other only
      replaces one whose value is empty. */
  function ReportedDkim(d: Domains, fromDomain: string, rec: Record, results: seq<AuthResult>): (r: Option<AuthResult>)
    ensures r.Some? ==> r.value.Dkim?
  {
    if results == [] then None
    else
      var earlier := ReportedDkim(d, fromDomain, rec, Front(results));
      var x := Last(results);
      if x.Dkim? && (earlier.None? || earlier.value.value == Unset || DkimAligns(d, fromDomain, rec, x)) then Some(x)
      else earlier
  }

  /** The verdict, from what the results say and the value of the SPF result considered. */
  function Verdict(dkimPresent: bool, spf: Value, dkimPass: bool, spfPass: bool, dkimTemp: bool): Value {
    if !dkimPresent || spf == Unset then NoResult
    else if dkimPass then Pass
    else if (dkimTemp && !spfPass) || spf == TempError then TempError
    else if spfPass then Pass
    else Fail
  }

  function VerdictWith(d: Domains, fromDomain: string, rec: Record, results: seq<AuthResult>, spf: Option<AuthResult>): Value
    requires spf.Some? ==> spf.value.Spf?
  {
    Verdict(DkimPresent(results), if spf.Some? then spf.value.value else Unset,
            AlignedDkimPass(d, fromDomain, rec, results), AlignedSpfPass(d, fromDomain, rec, results),
            AlignedDkimTempError(d, fromDomain, rec, results))
  }

  function Evaluate(d: Domains, fromDomain: string, rec: Record, results: seq<AuthResult>): Value {
    VerdictWith(d, fromDomain, rec, results, LastSpf(results))
  }

  lemma {:induction false} PresentNext(seen: seq<AuthResult>, x: AuthResult)
    ensures DkimPresent(seen + [x]) == (DkimPresent(seen) || x.Dkim?)
  {
    var more := seen + [x];
    assert more[|seen|] == x && forall i :: 0 <= i < |seen| ==> more[i] == seen[i];
  }

  lemma {:induction false} DkimPassNext(d: Domains, fromDomain: string, rec: Record, seen: seq<AuthResult>, x: AuthResult)
    ensures AlignedDkimPass(d, fromDomain, rec, seen + [x])
         == (AlignedDkimPass(d, fromDomain, rec, seen) || (DkimAligns(d, fromDomain, rec, x) && x.value == Pass))
  {
    var more := seen + [x];
    assert more[|seen|] == x && forall i :: 0 <= i < |seen| ==> more[i] == seen[i];
  }

  lemma {:induction false} DkimTempNext(d: Domains, fromDomain: string, rec: Record, seen: seq<AuthResult>, x: AuthResult)
    ensures AlignedDkimTempError(d, fromDomain, rec, seen + [x])
         == (AlignedDkimTempError(d, fromDomain, rec, seen) || (DkimAligns(d, fromDomain, rec, x) && x.value == TempError))
  {
    var more := seen + [x];
    assert more[|seen|] == x && forall i :: 0 <= i < |seen| ==> more[i] == seen[i];
  }

  lemma {:induction false} SpfPassNext(d: Domains, fromDomain: string, rec: Record, seen: seq<AuthResult>, x: AuthResult)
    ensures AlignedSpfPass(d, fromDomain, rec, seen + [x])
         == (AlignedSpfPass(d, fromDomain, rec, seen) || (SpfAligns(d, fromDomain, rec, x) && x.value == Pass))
  {
    var more := seen + [x];
    assert more[|seen|] == x && forall i :: 0 <= i < |seen| ==> more[i] == seen[i];
  }

  lemma {:induction false} ReportedNext(d: Domains, fromDomain: string, rec: Record, seen: seq<AuthResult>, x: AuthResult)
    ensures LastSpf(seen + [x]) == if x.Spf? then Some(x) else LastSpf(seen)
    ensures var earlier, now := ReportedDkim(d, fromDomain, rec, seen), ReportedDkim(d, fromDomain, rec, seen + [x]);
            now == if x.Dkim? && (earlier.None? || earlier.value.value == Unset || DkimAligns(d, fromDomain, rec, x)) then Some(x) else earlier
  {
    assert Front(seen + [x]) == seen && Last(seen + [x]) == x;
  }

  /** The loop over the results agrees with what the results say, taken as a whole. */
  method EvaluateAlignment(d: Domains, fromDomain: string, rec: Record, results: seq<AuthResult>) returns (r: Evaluation)
    ensures r.value == Evaluate(d, fromDomain, rec, results)
    ensures r.spf == LastSpf(results) && r.dkim == ReportedDkim(d, fromDomain, rec, results)
    ensures r.spfAligned == AlignedSpfPass(d, fromDomain, rec, results)
    ensures r.dkimAligned == AlignedDkimPass(d, fromDomain, rec, results)
  {
    var spfAligned, dkimAligned, dkimPresent, dkimTempFail := false, false, false, false;
    var spf: Option<AuthResult>, dkim: Option<AuthResult> := None, None;
    var i := 0;
    while i < |results|
      invariant 0 <= i <= |results|
      invariant spf == LastSpf(results[..i]) && dkim == ReportedDkim(d, fromDomain, rec, results[..i])
      invariant dkimPresent == DkimPresent(results[..i])
      invariant dkimAligned == AlignedDkimPass(d, fromDomain, rec, results[..i])
      invariant dkimTempFail == AlignedDkimTempError(d, fromDomain, rec, results[..i])
      invariant spfAligned == AlignedSpfPass(d, fromDomain, rec, results[..i])
    {
      var res := results[i];
      assert results[..i + 1] == results[..i] + [res];
      PresentNext(results[..i], res);
      DkimPassNext(d, fromDomain, rec, results[..i], res);
      DkimTempNext(d, fromDomain, rec, results[..i], res);
      SpfPassNext(d, fromDomain, rec, results[..i], res);
      ReportedNext(d, fromDomain, rec, results[..i], res);
      if res.Dkim? {
        dkimPresent := true;
        if dkim.None? || dkim.value.value == Unset {
          dkim := Some(res);
        }
        if IsAligned(d, fromDomain, res.domain, rec.dkimMode) {
          dkim := Some(res);
          if res.value == Pass {
            dkimAligned := true;
          } else if res.value == TempError {
            dkimTempFail := true;
          }
        }
      }
      if res.Spf? {
        spf := Some(res);
        var aligned;
        if res.from == "" {
          aligned := IsAligned(d, fromDomain, res.helo, rec.spfMode);
        } else {
          aligned := IsAligned(d, fromDomain, res.from, rec.spfMode);
        }
        if aligned && res.value == Pass {
          spfAligned := true;
        }
      }
      i := i + 1;
    }
    assert results[..i] == results;
    var value := Conclude(dkimPresent, spf, dkimAligned, spfAligned, dkimTempFail);
    return Evaluation(value, spf, spfAligned, dkim, dkimAligned);
  }

  method Conclude(dkimPresent: bool, spf: Option<AuthResult>, dkimAligned: bool, spfAligned: bool, dkimTempFail: bool) returns (value: Value)
    requires spf.Some? ==> spf.value.Spf?
    ensures value == Verdict(dkimPresent, if spf.Some? then spf.value.value else Unset, dkimAligned, spfAligned, dkimTempFail)
  {
    if !dkimPresent || spf.None? || spf.value.value == Unset {
      value := NoResult;
    } else if dkimTempFail && !dkimAligned && !spfAligned {
      value := TempError;
    } else if !dkimAligned && spf.value.value == TempError {
      value := TempError;
    } else if dkimAligned || spfAligned {
      value := Pass;
    } else {
      value := Fail;
    }
  }

  // ---------------------------------------------------------------- policy

  /** What the lookup of the policy record came back with. */
  datatype Lookup = LookupFailed(temporary: bool) | NoRecord | Found(policyDomain: string, fromDomain: string, rec: Record)

  datatype Applied = Applied(value: Value, policy: Policy)

  /** The policy a record asks for: that for subdomains if the record came from another domain. */
  function RecordPolicy(d: Domains, policyDomain: string, fromDomain: string, rec: Record): Policy {
    if !EqualFold(d, policyDomain, fromDomain) && rec.subdomainPolicy.Some? then rec.subdomainPolicy.value else rec.policy
  }

  /** The percentage draw, a number below 100, exempts the message. */
  predicate Exempt(rec: Record, draw: nat) {
    rec.percent.Some? && draw > rec.percent.value
  }

  function ApplyPolicy(d: Domains, lookup: Lookup, results: seq<AuthResult>, draw: nat): Applied {
    match lookup
    case LookupFailed(temporary) => if temporary then Applied(TempError, PolicyReject) else Applied(PermError, PolicyNone)
    case NoRecord => Applied(NoResult, PolicyNone)
    case Found(policyDomain, fromDomain, rec) =>
      var value := Evaluate(d, fromDomain, rec, results);
      if value == Pass || value == NoResult || Exempt(rec, draw) then Applied(value, PolicyNone)
      else Applied(value, RecordPolicy(d, policyDomain, fromDomain, rec))
  }

  /** Holds the outcome of the record lookup, a channel with room for one, until it is applied. */
  class Verifier {
    const domains: Domains
    var fetched: Option<Lookup>

    constructor (domains: Domains)
      ensures this.domains == domains && fetched.None?
    {
      this.domains := domains;
      fetched := None;
    }

    method FetchRecord(lookup: Lookup)
      requires fetched.None?
      modifies this
      ensures fetched == Some(lookup)
    {
      fetched := Some(lookup);
    }

    method Apply(results: seq<AuthResult>, draw: nat) returns (applied: Applied)
      requires fetched.Some?
      modifies this
      ensures fetched.None?
      ensures applied == ApplyPolicy(domains, old(fetched.value), results, draw)
    {
      var data := fetched.value;
      fetched := None;
      match data {
        case LookupFailed(temporary) =>
          if temporary {
            return Applied(TempError, PolicyReject);
          }
          return Applied(PermError, PolicyNone);
        case NoRecord =>
          return Applied(NoResult, PolicyNone);
        case Found(policyDomain, fromDomain, rec) =>
          var result := EvaluateAlignment(domains, fromDomain, rec, results);
          if result.value == Pass || result.value == NoResult {
            return Applied(result.value, PolicyNone);
          }
          if rec.percent.Some? && draw > rec.percent.value {
            return Applied(result.value, PolicyNone);
          }
          var policy := rec.policy;
          if !EqualFold(domains, policyDomain, fromDomain) && rec.subdomainPolicy.Some? {
            policy := rec.subdomainPolicy.value;
          }
          return Applied(result.value, policy);
      }
    }
  }

  // ---------------------------------------------------------------- end to end

  ghost predicate AtMostOneSpf(results: seq<AuthResult>) {
    forall i, j :: 0 <= i < j < |results| ==> !(results[i].Spf? && results[j].Spf?)
  }

  /** Both kinds of result are present, and the SPF result has a value. */
  predicate Enough(results: seq<AuthResult>) {
    DkimPresent(results) && exists i :: 0 <= i < |results| && results[i].Spf? && results[i].value != Unset
  }

  predicate AlignedPass(d: Domains, fromDomain: string, rec: Record, results: seq<AuthResult>) {
    AlignedDkimPass(d, fromDomain, rec, results) || AlignedSpfPass(d, fromDomain, rec, results)
  }

  /** Two domains of one owner, as far as the From domain is concerned: the same organisational domain or, in strict
      mode and where the From domain is itself a public suffix, the same domain. */
  ghost predicate SameOwner(d: Domains, fromDomain: string, other: string, mode: Mode) {
    if mode == Strict || d.fold(d.publicSuffix(fromDomain)) == d.fold(fromDomain) then d.fold(other) == d.fold(fromDomain)
    else exists o, p :: d.orgDomain(fromDomain) == Some(o) && d.orgDomain(other) == Some(p) && d.fold(o) == d.fold(p)
  }

  /** The result says that the owner of the From domain sent the message. */
  ghost predicate Vouches(d: Domains, fromDomain: string, rec: Record, r: AuthResult) {
    match r
    case Dkim(value, domain) => value == Pass && SameOwner(d, fromDomain, domain, rec.dkimMode)
    case Spf(value, from, helo) => value == Pass && SameOwner(d, fromDomain, if from != "" then from else helo, rec.spfMode)
    case OtherResult(_) => false
  }

  lemma {:induction false} AlignedMeansSameOwner(d: Domains, fromDomain: string, other: string, mode: Mode)
    ensures IsAligned(d, fromDomain, other, mode) <==> SameOwner(d, fromDomain, other, mode)
  {
  }

  lemma {:induction false} AlignedPassMeans(d: Domains, fromDomain: string, rec: Record, results: seq<AuthResult>)
    ensures AlignedPass(d, fromDomain, rec, results) <==> exists i :: 0 <= i < |results| && Vouches(d, fromDomain, rec, results[i])
  {
    forall i | 0 <= i < |results|
      ensures Vouches(d, fromDomain, rec, results[i]) <==>
                (DkimAligns(d, fromDomain, rec, results[i]) || SpfAligns(d, fromDomain, rec, results[i])) && results[i].value == Pass
    {
      match results[i]
      case Dkim(_, domain) => AlignedMeansSameOwner(d, fromDomain, domain, rec.dkimMode);
      case Spf(_, from, helo) => AlignedMeansSameOwner(d, fromDomain, if from != "" then from else helo, rec.spfMode);
      case OtherResult(_) =>
    }
  }

  /** Nobody vouches: whatever the results and their number, the verdict is not pass. */
  lemma {:induction false} NobodyVouches(d: Domains, fromDomain: string, rec: Record, results: seq<AuthResult>)
    requires forall i :: 0 <= i < |results| ==> !Vouches(d, fromDomain, rec, results[i])
    ensures Evaluate(d, fromDomain, rec, results) != Pass
  {
    AlignedPassMeans(d, fromDomain, rec, results);
  }

  /** What a record asks for in case of failure: what it says of subdomains if it was found at another domain
      and says something of them. */
  ghost predicate AsksFor(d: Domains, policyDomain: string, fromDomain: string, rec: Record, policy: Policy) {
    if d.fold(policyDomain) == d.fold(fromDomain) || rec.subdomainPolicy.None? then policy == rec.policy
    else rec.subdomainPolicy == Some(policy)
  }

  /** Both kinds of result are there and none vouches for the message, which the draw does not exempt. */
  ghost predicate Fails(d: Domains, fromDomain: string, rec: Record, results: seq<AuthResult>, draw: nat) {
    Enough(results) && !Exempt(rec, draw) && forall i :: 0 <= i < |results| ==> !Vouches(d, fromDomain, rec, results[i])
  }

  /** What happens to a message, with at most one SPF result, by the domains alone: it is rejected exactly if the
      lookup failed for the time being or the record asks for that and it fails, and quarantined exactly if the
      record asks for that and it fails. */
  lemma {:induction false} OutcomeExactly(d: Domains, lookup: Lookup, results: seq<AuthResult>, draw: nat)
    requires AtMostOneSpf(results)
    ensures ApplyPolicy(d, lookup, results, draw).policy == PolicyReject <==>
              || lookup == LookupFailed(true)
              || (lookup.Found? && Fails(d, lookup.fromDomain, lookup.rec, results, draw)
                  && AsksFor(d, lookup.policyDomain, lookup.fromDomain, lookup.rec, PolicyReject))
    ensures ApplyPolicy(d, lookup, results, draw).policy == PolicyQuarantine <==>
              && lookup.Found? && Fails(d, lookup.fromDomain, lookup.rec, results, draw)
              && AsksFor(d, lookup.policyDomain, lookup.fromDomain, lookup.rec, PolicyQuarantine)
  {
    if lookup.Found? {
      PolicyExactly(d, lookup.policyDomain, lookup.fromDomain, lookup.rec, results, draw);
      AlignedPassMeans(d, lookup.fromDomain, lookup.rec, results);
    }
  }

  /** It might have vouched for the message but for a temporary error; of an SPF result this is said whatever
      its domain. */
  ghost predicate Undecided(d: Domains, fromDomain: string, rec: Record, r: AuthResult) {
    match r
    case Dkim(value, domain) => value == TempError && SameOwner(d, fromDomain, domain, rec.dkimMode)
    case Spf(value, _, _) => value == TempError
    case OtherResult(_) => false
  }

  lemma {:induction false} DkimTempMeans(d: Domains, fromDomain: string, rec: Record, results: seq<AuthResult>)
    ensures AlignedDkimTempError(d, fromDomain, rec, results) <==>
              exists i :: 0 <= i < |results| && results[i].Dkim? && Undecided(d, fromDomain, rec, results[i])
  {
    forall i | 0 <= i < |results| && results[i].Dkim?
      ensures Undecided(d, fromDomain, rec, results[i]) <==> DkimAligns(d, fromDomain, rec, results[i]) && results[i].value == TempError
    {
      AlignedMeansSameOwner(d, fromDomain, results[i].domain, rec.dkimMode);
    }
  }

  /** The verdict likewise: pass exactly if both kinds of result are there and one vouches; if none does it is a
      temporary error if one is undecided, else fail. */
  lemma {:induction false} VerdictExactly(d: Domains, fromDomain: string, rec: Record, results: seq<AuthResult>)
    requires AtMostOneSpf(results)
    ensures var value, vouched := Evaluate(d, fromDomain, rec, results), exists i :: 0 <= i < |results| && Vouches(d, fromDomain, rec, results[i]);
            && (value == Pass <==> Enough(results) && vouched)
            && (value == NoResult <==> !Enough(results))
            && (value == Fail || value == TempError <==> Enough(results) && !vouched)
            && (value == TempError <==> Enough(results) && !vouched && exists i :: 0 <= i < |results| && Undecided(d, fromDomain, rec, results[i]))
  {
    DkimTempMeans(d, fromDomain, rec, results);
    PolicyExactly(d, fromDomain, fromDomain, rec, results, 0);
    AlignedPassMeans(d, fromDomain, rec, results);
    assert ApplyPolicy(d, Found(fromDomain, fromDomain, rec), results, 0).value == Evaluate(d, fromDomain, rec, results);
  }

  /** With at most one SPF result: the record's policy is applied exactly when both kinds of result
      are there, none of them is an aligned pass, and the draw does not exempt the message; the
      verdict is then fail or temperror, and pass exactly when there is an aligned pass. */
  lemma {:induction false} PolicyExactly(d: Domains, policyDomain: string, fromDomain: string, rec: Record, results: seq<AuthResult>, draw: nat)
    requires AtMostOneSpf(results)
    ensures var applied := ApplyPolicy(d, Found(policyDomain, fromDomain, rec), results, draw);
            var enough, pass := Enough(results), AlignedPass(d, fromDomain, rec, results);
            && applied.policy == (if enough && !pass && !Exempt(rec, draw)
                                  then RecordPolicy(d, policyDomain, fromDomain, rec) else PolicyNone)
            && (!enough ==> applied.value == NoResult)
            && (enough && pass ==> applied.value == Pass)
            && (enough && !pass ==> applied.value == Fail || applied.value == TempError)
  {
  }

  /** Outside a temporary failure of the lookup, an aligned pass means no quarantine and no rejection. */
  lemma {:induction false} AlignedPassIsSafe(d: Domains, lookup: Lookup, results: seq<AuthResult>, draw: nat)
    requires AtMostOneSpf(results) && lookup != LookupFailed(true)
    requires lookup.Found? ==> AlignedPass(d, lookup.fromDomain, lookup.rec, results)
    ensures ApplyPolicy(d, lookup, results, draw).policy == PolicyNone
  {
    if lookup.Found? {
      PolicyExactly(d, lookup.policyDomain, lookup.fromDomain, lookup.rec, results, draw);
    }
  }

  /** How many of the draws below `bound` apply the policy. */
  function ApplyingDraws(rec: Record, bound: nat): nat {
    if bound == 0 then 0 else ApplyingDraws(rec, bound - 1) + if Exempt(rec, bound - 1) then 0 else 1
  }

  /** The percentage lets through one draw more than it names: of 100 draws, `percent` + 1 apply. */
  lemma {:induction false} PercentDraws(rec: Record, percent: nat, bound: nat)
    requires rec.percent == Some(percent)
    ensures ApplyingDraws(rec, bound) == if bound <= percent + 1 then bound else percent + 1
  {
    if bound > 0 {
      PercentDraws(rec, percent, bound - 1);
    }
  }

  // ---------------------------------------------------------------- the order of the results

  /** Apart from the SPF result considered, the verdict only looks at which results there are. */
  lemma {:induction false} VerdictIgnoresOrder(d: Domains, fromDomain: string, rec: Record, a: seq<AuthResult>, b: seq<AuthResult>, spf: Option<AuthResult>)
    requires multiset(a) == multiset(b) && (spf.Some? ==> spf.value.Spf?)
    ensures VerdictWith(d, fromDomain, rec, a, spf) == VerdictWith(d, fromDomain, rec, b, spf)
  {
    SameMembers(a, b);
    FlagsByMembers(d, fromDomain, rec, a, b);
    FlagsByMembers(d, fromDomain, rec, b, a);
  }

  lemma {:induction false} FlagsByMembers(d: Domains, fromDomain: string, rec: Record, a: seq<AuthResult>, b: seq<AuthResult>)
    requires forall x :: x in a ==> x in b
    ensures DkimPresent(a) ==> DkimPresent(b)
    ensures AlignedDkimPass(d, fromDomain, rec, a) ==> AlignedDkimPass(d, fromDomain, rec, b)
    ensures AlignedSpfPass(d, fromDomain, rec, a) ==> AlignedSpfPass(d, fromDomain, rec, b)
    ensures AlignedDkimTempError(d, fromDomain, rec, a) ==> AlignedDkimTempError(d, fromDomain, rec, b)
  {
    forall i | 0 <= i < |a| ensures exists j :: 0 <= j < |b| && b[j] == a[i] {
      assert a[i] in b;
    }
  }

  /** Either every SPF result has this value, or none has. */
  ghost predicate SpfAlike(results: seq<AuthResult>, value: Value) {
    forall x, y :: x in results && y in results && x.Spf? && y.Spf? && x.value == value ==> y.value == value
  }

  /** There is no DKIM result; or the SPF results are all without a value or all with one, and as to being
      temporary errors they are all alike, unless DKIM settles that: by an aligned pass, or by an aligned
      temporary error that no aligned SPF pass makes up for. */
  ghost predicate SpfResultsAgree(d: Domains, fromDomain: string, rec: Record, results: seq<AuthResult>) {
    || !DkimPresent(results)
    || (&& SpfAlike(results, Unset)
        && (|| SpfAlike(results, TempError)
            || AlignedDkimPass(d, fromDomain, rec, results)
            || (AlignedDkimTempError(d, fromDomain, rec, results) && !AlignedSpfPass(d, fromDomain, rec, results))))
  }

  /** The verdict would be the same whichever of the SPF results came last. */
  ghost predicate AnyLast(d: Domains, fromDomain: string, rec: Record, results: seq<AuthResult>) {
    forall x, y :: x in results && y in results && x.Spf? && y.Spf? ==>
      VerdictWith(d, fromDomain, rec, results, Some(x)) == VerdictWith(d, fromDomain, rec, results, Some(y))
  }

  ghost predicate OrderFree(d: Domains, fromDomain: string, rec: Record, results: seq<AuthResult>) {
    forall other :: multiset(other) == multiset(results) ==>
      Evaluate(d, fromDomain, rec, other) == Evaluate(d, fromDomain, rec, results)
  }

  lemma {:induction false} MoveLast(results: seq<AuthResult>, x: AuthResult) returns (other: seq<AuthResult>)
    requires x in results
    ensures multiset(other) == multiset(results) && other != [] && Last(other) == x
  {
    var i :| 0 <= i < |results| && results[i] == x;
    other := results[..i] + results[i + 1..] + [x];
    assert results == results[..i] + [x] + results[i + 1..];
  }

  /** Whatever order the check goroutines delivered the results in, the verdict is the same if and only
      if the SPF results agree with one another. */
  lemma {:induction false} VerdictOrderFreeIff(d: Domains, fromDomain: string, rec: Record, results: seq<AuthResult>)
    ensures OrderFree(d, fromDomain, rec, results) <==> SpfResultsAgree(d, fromDomain, rec, results)
  {
    if AnyLast(d, fromDomain, rec, results) {
      forall other | multiset(other) == multiset(results)
        ensures Evaluate(d, fromDomain, rec, other) == Evaluate(d, fromDomain, rec, results)
      {
        SameMembers(other, results);
        VerdictIgnoresOrder(d, fromDomain, rec, other, results, LastSpf(other));
      }
    }
    if OrderFree(d, fromDomain, rec, results) {
      forall x, y | x in results && y in results && x.Spf? && y.Spf?
        ensures VerdictWith(d, fromDomain, rec, results, Some(x)) == VerdictWith(d, fromDomain, rec, results, Some(y))
      {
        LastDecides(d, fromDomain, rec, results, x);
        LastDecides(d, fromDomain, rec, results, y);
      }
    }
  }

  lemma {:induction false} LastDecides(d: Domains, fromDomain: string, rec: Record, results: seq<AuthResult>, x: AuthResult)
    requires OrderFree(d, fromDomain, rec, results) && x in results && x.Spf?
    ensures VerdictWith(d, fromDomain, rec, results, Some(x)) == Evaluate(d, fromDomain, rec, results)
  {
    var other := MoveLast(results, x);
    assert LastSpf(other) == Some(x);
    assert Evaluate(d, fromDomain, rec, other) == Evaluate(d, fromDomain, rec, results);
    VerdictIgnoresOrder(d, fromDomain, rec, other, results, Some(x));
  }

  /** In particular, with at most one SPF result the order never matters. */
  lemma {:induction false} OneSpfIsOrderFree(d: Domains, fromDomain: string, rec: Record, results: seq<AuthResult>)
    requires AtMostOneSpf(results)
    ensures OrderFree(d, fromDomain, rec, results)
  {
    VerdictOrderFreeIff(d, fromDomain, rec, results);
  }
}
