/** Routing of senders and recipients to the blocks of a pipeline. */
module Routing {
  import opened Common
  import opened Checks
  import Address

  /** Whether a table has an entry for a key. */
  type Finder = string -> Result<bool, string>

  datatype TableRule<B> = TableRule(find: Finder, block: B)

  /** Rules in order of precedence: tables, addresses and domains, and what is left. */
  datatype Rules<B> = Rules(tables: seq<TableRule<B>>, exact: map<string, B>, fallback: Option<B>)

  /** `id` tells the recipient blocks of a source block apart. */
  datatype RcptBlock = RcptBlock(id: nat, checks: seq<Check>, modifiers: seq<nat>, reject: Option<Reason>, targets: seq<nat>)

  datatype SourceBlock = SourceBlock(checks: seq<Check>, modifiers: seq<nat>, rcpts: Rules<RcptBlock>)

  datatype Config = Config(checks: seq<Check>, modifiers: seq<nat>, sources: Rules<SourceBlock>, doDMARC: bool)

  datatype RouteError = CannotNormalize | CannotSplit

  /** A failing table counts as one without an entry. */
  predicate Finds(find: Finder, key: string) {
    find(key) == Ok(true)
  }

  function FirstFinding<B>(tables: seq<TableRule<B>>, key: string): (first: Option<nat>)
    ensures first.Some? ==> first.value < |tables| && Finds(tables[first.value].find, key)
    ensures first.Some? ==> forall j :: 0 <= j < first.value ==> !Finds(tables[j].find, key)
    ensures first.None? ==> forall j :: 0 <= j < |tables| ==> !Finds(tables[j].find, key)
  {
    if tables == [] then None
    else if Finds(tables[0].find, key) then Some(0)
    else
      var rest := FirstFinding(tables[1..], key);
      assert forall j :: 1 <= j < |tables| ==> tables[j] == tables[1..][j - 1];
      if rest.Some? then Some(rest.value + 1) else None
  }

  /** The domain of an address; the null sender has none. */
  function DomainOf(clean: string, nullAllowed: bool): Option<string> {
    var parts := Address.Split(clean);
    if parts.Ok? then Some(parts.value.1) else if nullAllowed && clean == "" then Some("") else None
  }

  /** The domain is what follows the last at-sign, with something before it; a bare postmaster and, where it is
      allowed, the null sender have the empty one. */
  lemma {:induction false} DomainExactly(clean: string, nullAllowed: bool, domain: string)
    ensures DomainOf(clean, nullAllowed) == Some(domain) <==>
              || (domain == "" && (Address.IsPostmaster(clean) || (nullAllowed && clean == "")))
              || (domain != "" && '@' !in domain && exists mbox :: mbox != "" && clean == mbox + "@" + domain)
  {
    forall mbox, other ensures
      Address.Split(clean) == Ok((mbox, other)) <==>
        || (Address.IsPostmaster(clean) && mbox == clean && other == "")
        || (clean == mbox + "@" + other && mbox != "" && other != "" && '@' !in other)
    {
      Address.SplitExactly(clean, mbox, other);
    }
    if DomainOf(clean, nullAllowed) == Some(domain) && Address.Split(clean).Ok? {
      assert Address.Split(clean) == Ok((Address.Split(clean).value.0, domain));
    }
    if domain != "" && '@' !in domain {
      if mbox :| mbox != "" && clean == mbox + "@" + domain {
        assert Address.Split(clean) == Ok((mbox, domain));
      }
    }
    if Address.IsPostmaster(clean) {
      assert Address.Split(clean) == Ok((clean, ""));
    }
    assert "" != clean || Address.Split(clean).Err? by {
      if Address.Split(clean).Ok? {
        var parts := Address.Split(clean).value;
        assert Address.Split(clean) == Ok((parts.0, parts.1));
      }
    }
  }

  /** The block for a normalized address. `nullAllowed` is set for senders. */
  function Chosen<B>(rules: Rules<B>, clean: string, nullAllowed: bool): Result<Option<B>, RouteError> {
    var first := FirstFinding(rules.tables, clean);
    if first.Some? then Ok(Some(rules.tables[first.value].block))
    else if clean in rules.exact then Ok(Some(rules.exact[clean]))
    else
      var domain := DomainOf(clean, nullAllowed);
      if domain.None? then Err(CannotSplit)
      else if domain.value in rules.exact then Ok(Some(rules.exact[domain.value]))
      else Ok(rules.fallback)
  }

  method Route<B>(rules: Rules<B>, clean: string, nullAllowed: bool) returns (r: Result<Option<B>, RouteError>)
    ensures r == Chosen(rules, clean, nullAllowed)
  {
    var i := 0;
    while i < |rules.tables|
      invariant 0 <= i <= |rules.tables| && forall j :: 0 <= j < i ==> !Finds(rules.tables[j].find, clean)
    {
      var found := rules.tables[i].find(clean);
      if found.Ok? && found.value {
        return Ok(Some(rules.tables[i].block));
      }
      i := i + 1;
    }
    if clean in rules.exact {
      return Ok(Some(rules.exact[clean]));
    }
    var parts := Address.Split(clean);
    if parts.Err? && !(nullAllowed && clean == "") {
      return Err(CannotSplit);
    }
    var domain := if parts.Ok? then parts.value.1 else "";
    if domain in rules.exact {
      return Ok(Some(rules.exact[domain]));
    }
    return Ok(rules.fallback);
  }

  /** The recipient's block, by its normalized form. */
  method RcptBlockForAddr(source: SourceBlock, normalize: string -> Option<string>, to: string)
    returns (r: Result<Option<RcptBlock>, RouteError>)
    ensures r == RcptRoute(source, normalize, to)
  {
    var clean := normalize(to);
    if clean.None? {
      return Err(CannotNormalize);
    }
    r := Route(source.rcpts, clean.value, false);
  }

  function RcptRoute(source: SourceBlock, normalize: string -> Option<string>, to: string): Result<Option<RcptBlock>, RouteError> {
    if normalize(to).None? then Err(CannotNormalize) else Chosen(source.rcpts, normalize(to).value, false)
  }

  /** The sender's block; the null sender is taken as it is. */
  method SrcBlockForAddr(config: Config, normalize: string -> Option<string>, from: string)
    returns (r: Result<Option<SourceBlock>, RouteError>)
    ensures r == SourceRoute(config, normalize, from)
  {
    var clean := from;
    if from != "" {
      var n := normalize(from);
      if n.None? {
        return Err(CannotNormalize);
      }
      clean := n.value;
    }
    r := Route(config.sources, clean, true);
  }

  function SourceRoute(config: Config, normalize: string -> Option<string>, from: string): Result<Option<SourceBlock>, RouteError> {
    if from == "" then Chosen(config.sources, "", true)
    else if normalize(from).None? then Err(CannotNormalize)
    else Chosen(config.sources, normalize(from).value, true)
  }
}
