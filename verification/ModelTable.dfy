/** A channel's model table: rows, row identity, and how a row resolves to an upstream target. */
module ModelTable {
  import opened Names
  import opened Seqs

  /** A row's own price. A blank price is dropped and an invalid one rejects the row. */
  datatype Pricing = Unpriced | BlankPrice | InvalidPrice | Price(id: int)

  datatype ModelEntry = ModelEntry(model: string, redirect: string, disabled: bool, pricing: Pricing)
  {
    /** The upstream name the row names directly. */
    function Target(): string {
      if redirect == "" then model else redirect
    }

    function Identity(): RowId {
      RowId(Lower(model), Lower(Routing(Target())))
    }

    /** The case-folded request name; rows that share it form a group. */
    function Group(): string {
      Lower(model)
    }
  }

  /** One upstream target within a request-model group. */
  datatype RowId = RowId(model: string, target: string)

  type Table = seq<ModelEntry>

  function CountGroup(t: Table, group: string): nat {
    if t == [] then 0
    else CountGroup(t[..|t| - 1], group) + if t[|t| - 1].Group() == group then 1 else 0
  }

  /** The rows of one group, in table order. */
  function GroupRows(t: Table, group: string): (rows: Table)
    ensures |rows| == CountGroup(t, group)
  {
    if t == [] then []
    else GroupRows(t[..|t| - 1], group) + if t[|t| - 1].Group() == group then [t[|t| - 1]] else []
  }

  predicate Has(t: Table, group: string) {
    CountGroup(t, group) > 0
  }

  lemma NoneInEmpty(group: string)
    ensures CountGroup([], group) == 0 && !Has([], group)
  {
  }

  lemma GroupStep(t: Table, e: ModelEntry, group: string)
    ensures e.Group() == group ==> GroupRows(t + [e], group) == GroupRows(t, group) + [e]
    ensures e.Group() != group ==> GroupRows(t + [e], group) == GroupRows(t, group)
    ensures CountGroup(t + [e], group) == CountGroup(t, group) + if e.Group() == group then 1 else 0
    ensures Has(t + [e], group) == (Has(t, group) || e.Group() == group)
  {
    assert (t + [e])[..|t|] == t;
  }

  lemma {:induction false} GroupRowsMembers(t: Table, group: string)
    ensures forall e :: e in GroupRows(t, group) <==> e in t && e.Group() == group
    ensures Has(t, group) <==> exists e :: e in t && e.Group() == group
  {
    hide ModelEntry.Group;
    if t != [] {
      var front, last := t[..|t| - 1], t[|t| - 1];
      assert t == front + [last];
      GroupRowsMembers(front, group);
      GroupStep(front, last, group);
    }
  }

  predicate DistinctIdentities(t: Table) {
    forall i, j :: 0 <= i < j < |t| ==> t[i].Identity() != t[j].Identity()
  }

  // ---- lookups -------------------------------------------------------------------------------

  /** Enabled rows whose name is exactly `name`, in table order. */
  function ExactRows(t: Table, name: string): Table {
    Filter((e: ModelEntry) => !e.disabled && e.model == name, t)
  }

  /** The first enabled row whose name carries a thinking suffix over `name`. */
  function AliasRows(t: Table, name: string): (rows: Table)
    ensures |rows| <= 1
  {
    if t == [] then []
    else if !t[0].disabled && t[0].model != name && Routing(t[0].model) == name then [t[0]]
    else AliasRows(t[1..], name)
  }

  function EnabledRows(t: Table, name: string): Table {
    var exact := ExactRows(t, name);
    if exact != [] then exact else AliasRows(t, name)
  }

  lemma {:induction false} AliasRowsMembers(t: Table, name: string)
    ensures forall e :: e in AliasRows(t, name) ==> e in t && !e.disabled && e.model != name && Routing(e.model) == name
  {
    hide Routing;
    if t != [] {
      assert t == [t[0]] + t[1..];
      AliasRowsMembers(t[1..], name);
    }
  }

  lemma EnabledRowsMembers(t: Table, name: string)
    ensures forall e :: e in EnabledRows(t, name) ==>
        e in t && !e.disabled && (e.model == name || Routing(e.model) == name)
  {
    hide Routing;
    FilterMembers((e: ModelEntry) => !e.disabled && e.model == name, t);
    AliasRowsMembers(t, name);
  }

  /** The redirect of the first enabled row for `name`, or "" when there is none. */
  function SecondHop(t: Table, name: string): string {
    var rows := EnabledRows(t, name);
    if rows == [] then "" else rows[0].redirect
  }

  /** The upstream model a row reaches: its redirect, followed through at most one more row. */
  function ResolveActual(t: Table, logical: string, row: ModelEntry): string {
    var target :=
      if row.redirect == "" then logical
      else
        var next := SecondHop(t, row.redirect);
        if next != "" then next else row.redirect;
    Routing(target)
  }

  // ---- request-body rules and the final upstream model ---------------------------------------

  /** A body rule after its path and value were parsed; rules on other paths do not touch the model. */
  datatype BodyRule = RemoveModel | OverrideModel(value: string) | OverrideNotText | OtherRule

  function AfterBodyRules(name: string, rules: seq<BodyRule>): string
    decreases |rules|
  {
    if rules == [] then TrimSpace(name)
    else
      var resolved := AfterBodyRules(name, rules[..|rules| - 1]);
      match rules[|rules| - 1]
      case RemoveModel => ""
      case OverrideModel(value) => TrimSpace(value)
      case OverrideNotText => ""
      case OtherRule => resolved
  }

  /** What the refresh reads of a channel. */
  datatype Channel = Channel(table: Table, rules: seq<BodyRule>)

  /** The models a row may be sent upstream as: under a body-carrying protocol the body rules have
      the last word, under Gemini the URL does. */
  function FinalUpstreams(c: Channel, row: ModelEntry): (r: seq<string>)
    ensures |r| == 2
  {
    var actual := ResolveActual(c.table, row.model, row);
    [AfterBodyRules(actual, c.rules), actual]
  }

  // ---- keys ----------------------------------------------------------------------------------

  datatype Scope = Scope(
    allowed: seq<string>, detected: seq<string>, empty: bool, auto: bool, disabled: bool)

  /** An API key row. An empty allowlist that is not marked empty is unrestricted. */
  datatype ApiKey = ApiKey(id: int, index: int, apiKey: string, scope: Scope)

  predicate AllowsModel(s: Scope, name: string) {
    var base := Routing(name);
    && !s.empty
    && (s.allowed == [] || base in {"", "*"} || exists a :: a in s.allowed && EqualFold(Routing(a), base))
  }

  predicate AllowsUpstream(s: Scope, actual: string) {
    var base := Routing(actual);
    || s.detected == []
    || base in {"", "*"}
    || exists d :: d in s.detected && EqualFold(Routing(d), Routing(base))
  }

  predicate Restricted(s: Scope) {
    s.empty || s.allowed != []
  }

  /** The upstream targets a key with scope `s` reaches through the channel's table. */
  ghost predicate Reaches(c: Channel, s: Scope, actual: string) {
    exists row :: row in c.table && AllowsModel(s, row.model) && actual in FinalUpstreams(c, row) &&
                  AllowsUpstream(s, actual)
  }
}
