/** One channel, refreshed twice over: with a body rule that removes the model a key gains upstreams, and
    without the rule it does not. */
module KeyScopesWitness {
  import opened Names
  import opened ModelTable
  import opened Seqs
  import opened ModelSave
  import opened ModelSaveLaws
  import opened ModelSaveFixpoint
  import opened ModelRefresh
  import opened KeyScopes
  import opened KeyScopesLaws

  const STRIP := Options(false, true)

  // The table before a refresh, and the one a merge without discovered models leaves.
  const OLD_ORG := ModelEntry("org/m", "x", false, Unpriced)
  const ROW_X := ModelEntry("m", "x", false, Unpriced)
  const ROW_Y := ModelEntry("m", "y", false, Unpriced)
  const OLD_TABLE: Table := [OLD_ORG, ROW_Y]
  const NEW_TABLE: Table := [ROW_X, ROW_Y]

  const REMOVING_OLD := Channel(OLD_TABLE, [RemoveModel])
  const REMOVING_NEW := Channel(NEW_TABLE, [RemoveModel])
  const PLAIN_OLD := Channel(OLD_TABLE, [])
  const PLAIN_NEW := Channel(NEW_TABLE, [])

  // A key that may use the one model of the source "org", once kept to upstream "y", once unbounded.
  const BOUNDED_KEY := Scope(["org/m"], ["y"], false, false, false)
  const OPEN_KEY := Scope(["org/m"], [], false, false, false)

  // ---- the names involved --------------------------------------------------------------------

  predicate Letter(c: char) {
    c in {'m', 'x', 'y', 'o', 'r', 'g', '/'}
  }

  /** A short lower-case name without brackets, blanks or control characters. */
  predicate Simple(name: string) {
    name != "" && forall i :: 0 <= i < |name| ==> Letter(name[i])
  }

  lemma SimpleName(name: string)
    requires Simple(name)
    ensures Lower(name) == name && Routing(name) == name && Trimmed(name) && !HasControl(name) && name !in {"", "*"}
  {
    hide Routing;
    PlainRouting(name);
  }

  lemma TheNames()
    ensures Simple("org/m") && Simple("m") && Simple("x") && Simple("y")
    ensures Alias("org/m", STRIP) == "m" && Alias("m", STRIP) == "m"
  {
    hide Lower;
    LastSlash("org/m", 3);
    assert "org/m"[4..] == "m";
    NoSlash("m");
  }

  // ---- the refresh ---------------------------------------------------------------------------

  lemma RowsAreClean(e: ModelEntry)
    requires e in {OLD_ORG, ROW_Y}
    ensures Validate(e) == Some(e)
  {
    hide Lower, Routing, TrimSpace, Alias, HasControl, Trimmed;
    TheNames();
    SimpleName(e.model);
    SimpleName(e.redirect);
    assert TrimSpace(e.model) == e.model && TrimSpace(e.redirect) == e.redirect;
  }

  lemma NameTaken(e: ModelEntry)
    requires e in {OLD_ORG, ROW_Y}
    ensures NameRow(e, "m", STRIP).row == e.(model := "m") && NameRow(e, "m", STRIP).id == RowId("m", e.redirect)
  {
    hide Lower, Routing, Alias, SourcePrefixed;
    TheNames();
    SimpleName("m");
    SimpleName(e.redirect);
  }

  lemma ChosenAfter(first: ModelEntry, e: ModelEntry)
    requires Alias(first.model, STRIP) == Alias(e.model, STRIP)
    ensures Chosen([first], e, STRIP) == Alias(e.model, STRIP)
  {
    hide Alias, Lower;
    assert [first][..0] == [];
    assert Spelling([], STRIP, Lower(Alias(e.model, STRIP))) == None;
  }

  lemma RowCleaned(before: Table, e: ModelEntry)
    requires e in {OLD_ORG, ROW_Y}
    ensures CleanRows(before + [e]) == CleanRows(before) + [e]
    ensures CleanRows([]) == []
  {
    hide Validate, FilterMap;
    RowsAreClean(e);
    FilterMapStep(Validate, before, e);
    NothingMapped(Validate);
  }

  lemma Saved(e: ModelEntry)
    requires e in {OLD_ORG, ROW_Y}
    ensures Alias(e.model, STRIP) == "m"
    ensures NameRow(e, "m", STRIP).row == e.(model := "m") && NameRow(e, "m", STRIP).id == RowId("m", e.redirect)
    ensures CleanRows([e]) == [e]
    ensures NamedRows([e], STRIP) == [NameRow(e, "m", STRIP)]
    ensures Dedup([NameRow(e, "m", STRIP)]) == [NameRow(e, "m", STRIP)]
  {
    hide Alias, CleanRows, NameRow, Chosen, NamedRows, Dedup;
    TheNames();
    NameTaken(e);
    RowCleaned([], e);
    NamedStep([], e, STRIP);
    ChosenFirst(e, STRIP);
    SavedFirst(STRIP);
    var x := NameRow(e, "m", STRIP);
    DedupStep([], x);
    assert [] + [x] == [x] && [] + [e] == [e];
  }

  lemma SavedOne(e: ModelEntry)
    requires e in {OLD_ORG, ROW_Y}
    ensures SaveTable([e], STRIP) == [e.(model := "m")]
  {
    hide Alias, CleanRows, NameRow, NamedRows, Dedup;
    Saved(e);
  }

  lemma SavedBoth()
    ensures SaveTable(OLD_TABLE, STRIP) == NEW_TABLE
  {
    hide Alias, CleanRows, NameRow, Chosen, NamedRows, Dedup;
    Saved(OLD_ORG);
    Saved(ROW_Y);
    RowCleaned([OLD_ORG], ROW_Y);
    NamedStep([OLD_ORG], ROW_Y, STRIP);
    ChosenAfter(OLD_ORG, ROW_Y);
    assert [OLD_ORG] + [ROW_Y] == OLD_TABLE;
    var x, y := NameRow(OLD_ORG, "m", STRIP), NameRow(ROW_Y, "m", STRIP);
    DedupStep([x], y);
    assert IndexOf([x], y.id) < 0;
    assert Place([x], y) == [x] + [y];
    assert Rows([x] + [y]) == NEW_TABLE;
  }

  lemma EveryRowSingle(e: ModelEntry)
    requires e in OLD_TABLE
    ensures Single(OLD_TABLE, e)
  {
    hide CountGroup, GroupRows, Lower;
    TheNames();
    SimpleName("org/m");
    SimpleName("m");
    assert OLD_TABLE == [] + [OLD_ORG] + [ROW_Y];
    NoneInEmpty(e.Group());
    GroupStep([], OLD_ORG, e.Group());
    GroupStep([OLD_ORG], ROW_Y, e.Group());
    assert [] + [OLD_ORG] == [OLD_ORG];
  }

  lemma NoGroupSpelling(seen: Table, group: string)
    requires forall e :: e in seen ==> e in OLD_TABLE
    ensures GroupSpelling(OLD_TABLE, seen, group) == "" && Singles(OLD_TABLE, seen) == seen
  {
    hide Single;
    if seen != [] {
      var front, last := seen[..|seen| - 1], seen[|seen| - 1];
      assert seen == front + [last];
      EveryRowSingle(last);
      NoGroupSpelling(front, group);
    }
  }

  lemma Identities()
    ensures ROW_X.Identity() == RowId("m", "x") && ROW_Y.Identity() == RowId("m", "y")
  {
    hide Lower, Routing;
    TheNames();
    SimpleName("m");
    SimpleName("x");
    SimpleName("y");
  }

  lemma Stored(row: ModelEntry)
    requires row in NEW_TABLE
    ensures StoredSingle(OLD_TABLE, NEW_TABLE, row.Identity()) == Some(row)
  {
    hide ModelEntry.Identity, GroupSpelling, Lower;
    Identities();
    NoGroupSpelling(OLD_TABLE, row.Group());
    assert Respell(OLD_TABLE, ROW_X) == ROW_X && Respell(OLD_TABLE, ROW_Y) == ROW_Y by {
      NoGroupSpelling(OLD_TABLE, ROW_X.Group());
      NoGroupSpelling(OLD_TABLE, ROW_Y.Group());
    }
    assert NEW_TABLE[..1] == [ROW_X];
  }

  lemma RefreshedRow(before: Table, e: ModelEntry)
    requires e in {OLD_ORG, ROW_Y} && !HasIdentity(before, e.(model := "m").Identity())
    ensures SingleRow(OLD_TABLE, STRIP, before, e) == Some(e.(model := "m"))
  {
    hide ModelEntry.Identity, SaveTable, StoredSingle, Single, HasIdentity;
    SavedOne(e);
    SavedBoth();
    NoGroupSpelling(OLD_TABLE, "");
    Stored(e.(model := "m"));
    forall r | r in OLD_TABLE ensures Single(OLD_TABLE, r) { EveryRowSingle(r); }
  }

  /** The refresh of this channel, with the source prefix stripped and nothing discovered. */
  lemma TheRefresh()
    ensures RefreshedTable(OLD_TABLE, STRIP) == NEW_TABLE && Merged(NEW_TABLE, []) == NEW_TABLE
  {
    hide ModelEntry.Identity, SingleRow, Single;
    Identities();
    EveryRowSingle(OLD_ORG);
    EveryRowSingle(ROW_Y);
    assert OLD_TABLE[..1] == [OLD_ORG] && [OLD_ORG][..0] == [];
    RefreshedRow([], OLD_ORG);
    assert Refreshed(OLD_TABLE, [OLD_ORG], STRIP) == [ROW_X];
    RefreshedRow([ROW_X], ROW_Y);
  }

  // ---- the renames ---------------------------------------------------------------------------

  lemma TheRenames()
    ensures Renames(OLD_TABLE, NEW_TABLE, STRIP) == map["org/m" := "m"]
  {
    hide Routing, Lower, Alias, GroupRows, UpstreamName;
    TheNames();
    SimpleName("org/m");
    SimpleName("m");
    GroupStep([], ROW_X, "m");
    GroupStep([ROW_X], ROW_Y, "m");
    GroupStep([], ROW_X, "org/m");
    GroupStep([ROW_X], ROW_Y, "org/m");
    assert [] + [ROW_X] == [ROW_X] && [ROW_X] + [ROW_Y] == NEW_TABLE && [] + [ROW_X] + [ROW_Y] == [ROW_X, ROW_Y];
    NoGroup("m");
    NoGroup("org/m");
    assert GroupRows(NEW_TABLE, "m") == [ROW_X, ROW_Y] && GroupRows(NEW_TABLE, "org/m") == [];
    assert UpstreamName(OLD_ORG) == UpstreamName(ROW_X) by { SameUpstream(); }
    assert RenamedTo(NEW_TABLE, STRIP, OLD_ORG) == Some("m");
    assert RenamedTo(NEW_TABLE, STRIP, ROW_Y) == None;
    assert OLD_TABLE[..1] == [OLD_ORG] && [OLD_ORG][..0] == [];
    assert Renames([OLD_ORG], NEW_TABLE, STRIP) == map["org/m" := "m"];
  }

  lemma SameUpstream()
    ensures UpstreamName(OLD_ORG) == UpstreamName(ROW_X)
  {
  }

  lemma NoGroup(group: string)
    ensures GroupRows([], group) == []
  {
  }

  lemma TheAllowlist(s: Scope)
    requires s.allowed == ["org/m"]
    ensures NewAllowed(Renames(OLD_TABLE, NEW_TABLE, STRIP), ConfiguredNames(NEW_TABLE), s.allowed) == ["m"]
  {
    hide Routing, TrimSpace, Lower, Renames, Trimmed;
    TheNames();
    TheRenames();
    SimpleName("org/m");
    SimpleName("m");
    assert TrimSpace("org/m") == "org/m";
    assert NEW_TABLE[0] in NEW_TABLE && "m" in ConfiguredNames(NEW_TABLE);
    FilterMapStep((name: string) => RenameAllowed(map["org/m" := "m"], ConfiguredNames(NEW_TABLE), name), [], "org/m");
    assert [] + ["org/m"] == ["org/m"];
  }

  lemma NewNameAllowed(s: Scope)
    requires s.allowed == ["m"] && !s.empty
    ensures AllowsModel(s, "m")
  {
    hide Routing;
    TheNames();
    SimpleName("m");
    assert "m" in s.allowed;
  }

  lemma OldNamesAllowed(s: Scope)
    requires s.allowed == ["org/m"] && !s.empty
    ensures AllowsModel(s, "org/m") && !AllowsModel(s, "m")
  {
    hide Routing, Lower;
    TheNames();
    SimpleName("org/m");
    SimpleName("m");
    assert "org/m" in s.allowed;
  }

  // ---- upstreams -----------------------------------------------------------------------------

  lemma NoSecondHop(t: Table, name: string)
    requires t in {OLD_TABLE, NEW_TABLE} && name in {"x", "y"}
    ensures SecondHop(t, name) == ""
  {
    hide Routing, Lower;
    TheNames();
    SimpleName("org/m");
    SimpleName("m");
    EnabledRowsMembers(t, name);
    var rows := EnabledRows(t, name);
    assert rows == [] || rows[0] in rows;
  }

  lemma Resolves(t: Table, row: ModelEntry)
    requires t in {OLD_TABLE, NEW_TABLE} && row in t
    ensures ResolveActual(t, row.model, row) == row.redirect
  {
    hide Routing, Lower, SecondHop;
    TheNames();
    NoSecondHop(t, row.redirect);
    SimpleName(row.redirect);
  }

  lemma AfterTheRule(name: string)
    ensures AfterBodyRules(name, []) == TrimSpace(name) && AfterBodyRules(name, [RemoveModel]) == ""
  {
    hide TrimSpace;
  }

  lemma TheUpstreams(c: Channel, row: ModelEntry)
    requires c in {REMOVING_OLD, REMOVING_NEW, PLAIN_OLD, PLAIN_NEW} && row in c.table
    ensures FinalUpstreams(c, row) == [if c.rules == [] then row.redirect else "", row.redirect]
  {
    hide ResolveActual, AfterBodyRules, TrimSpace, Simple, Lower, Routing, Trimmed, HasControl;
    Resolves(c.table, row);
    AfterTheRule(row.redirect);
    TheNames();
    SimpleName(row.redirect);
    assert TrimSpace(row.redirect) == row.redirect;
  }

  lemma SimpleUsable(name: string)
    requires name in {"x", "y"}
    ensures Usable(name) && DetectedName(name) == Some(name) && TrimSpace(name) == name
  {
    hide Routing, TrimSpace, Trimmed, HasControl, Lower, Alias;
    TheNames();
    SimpleName(name);
    assert TrimSpace(name) == name;
  }

  /** What a row contributes to the targets when its first upstream passes. */
  lemma RowContributes(c: Channel, s: Scope, row: ModelEntry, a: string, b: string)
    requires AllowsModel(s, row.model) && FinalUpstreams(c, row) == [a, b]
    ensures AllowsUpstream(s, a) && AllowsUpstream(s, b) ==> RowTargets(c, s, row) == [a, b]
    ensures AllowsUpstream(s, a) && !AllowsUpstream(s, b) ==> RowTargets(c, s, row) == [a]
  {
    hide AllowsModel, AllowsUpstream, FinalUpstreams;
    PairFiltered((x: string) => AllowsUpstream(s, x), a, b);
  }

  lemma PairFiltered(p: string -> bool, a: string, b: string)
    ensures p(a) && p(b) ==> Filter(p, [a, b]) == [a, b]
    ensures p(a) && !p(b) ==> Filter(p, [a, b]) == [a]
  {
    hide Filter;
    FilterStep(p, [], a);
    FilterStep(p, [a], b);
    assert [] + [a] == [a] && [a] + [b] == [a, b];
    assert Filter(p, []) == [] by { KeyScopes.NothingKept(p); }
  }

  lemma OldTargetsOf(c: Channel, s: Scope)
    requires c.table == OLD_TABLE && s.allowed == ["org/m"] && !s.empty
    ensures OldTargets(c, s) == RowTargets(c, s, OLD_ORG)
  {
    hide AllowsModel, AllowsUpstream, FinalUpstreams, Filter;
    OldNamesAllowed(s);
    var first := RowTargets(c, s, OLD_ORG);
    assert RowTargets(c, s, ROW_Y) == [];
    assert OLD_TABLE[..1] == [OLD_ORG] && [OLD_ORG][..0] == [];
    assert Targets(c, s, []) == [];
    assert Targets(c, s, [OLD_ORG]) == Targets(c, s, []) + first == first;
    assert Targets(c, s, OLD_TABLE) == first + [] == first;
  }

  lemma BoundedPasses()
    ensures AllowsUpstream(BOUNDED_KEY, "") && AllowsUpstream(BOUNDED_KEY, "y") && !AllowsUpstream(BOUNDED_KEY, "x")
  {
    hide Routing, Lower;
    TheNames();
    SimpleName("x");
    SimpleName("y");
    UniversalNames();
    assert "y" in BOUNDED_KEY.detected;
  }

  lemma BoundedTargets()
    ensures OldTargets(REMOVING_OLD, BOUNDED_KEY) == [""]
  {
    hide FinalUpstreams, OldTargets, RowTargets, AllowsModel, AllowsUpstream;
    OldTargetsOf(REMOVING_OLD, BOUNDED_KEY);
    OldNamesAllowed(BOUNDED_KEY);
    TheUpstreams(REMOVING_OLD, OLD_ORG);
    BoundedPasses();
    RowContributes(REMOVING_OLD, BOUNDED_KEY, OLD_ORG, "", "x");
  }

  lemma OpenTargets()
    ensures OldTargets(PLAIN_OLD, OPEN_KEY) == ["x", "x"]
  {
    hide FinalUpstreams, OldTargets, RowTargets, AllowsModel, Routing, Lower;
    OldTargetsOf(PLAIN_OLD, OPEN_KEY);
    OldNamesAllowed(OPEN_KEY);
    TheUpstreams(PLAIN_OLD, OLD_ORG);
    RowContributes(PLAIN_OLD, OPEN_KEY, OLD_ORG, "x", "x");
  }

  // ---- what becomes of the keys --------------------------------------------------------------

  /** With the rule the key's one recorded target is the blank name, so its rebuilt list is empty, and the
      refresh lets it at two upstreams it was kept from. */
  lemma WideningWitness()
    ensures RefreshedTable(REMOVING_OLD.table, STRIP) == REMOVING_NEW.table && REMOVING_OLD.rules == REMOVING_NEW.rules
    ensures Subject(BOUNDED_KEY) && Renames(REMOVING_OLD.table, REMOVING_NEW.table, STRIP) != map[]
    ensures var after := ScopeAfter(REMOVING_OLD, REMOVING_NEW, STRIP, BOUNDED_KEY);
      && !Reaches(REMOVING_OLD, BOUNDED_KEY, "x") && Reaches(REMOVING_NEW, after, "x")
      && !Reaches(REMOVING_OLD, BOUNDED_KEY, "y") && Reaches(REMOVING_NEW, after, "y")
      && Widened(REMOVING_OLD, REMOVING_NEW, BOUNDED_KEY, after)
  {
    hide Routing, TrimSpace, Lower, Renames, FinalUpstreams, Targets, NewAllowed, OldTargets, RemapScope,
         RefreshedTable, AllowsModel, AllowsUpstream, DetectedName;
    TheRefresh();
    TheRenames();
    assert "org/m" in Renames(OLD_TABLE, NEW_TABLE, STRIP);
    TheAllowlist(BOUNDED_KEY);
    BoundedTargets();
    BoundedPasses();
    OldTargetsAreReachable(REMOVING_OLD, BOUNDED_KEY);
    UniversalNames();
    TheUpstreams(REMOVING_NEW, ROW_X);
    TheUpstreams(REMOVING_NEW, ROW_Y);
    assert FinalUpstreams(REMOVING_NEW, ROW_X)[1] == "x" && FinalUpstreams(REMOVING_NEW, ROW_Y)[1] == "y";
    var candidate := Renamed(REMOVING_OLD, REMOVING_NEW, STRIP, BOUNDED_KEY);
    NewNameAllowed(candidate);
    TheNames();
    SimpleName("y");
    assert !InFold([""], "y") && Offends(REMOVING_NEW, candidate, BOUNDED_KEY, [""], ROW_Y);
    assert ROW_X in NEW_TABLE && ROW_Y in NEW_TABLE;
    assert Rebuilt(REMOVING_OLD, REMOVING_NEW, STRIP, BOUNDED_KEY) && Nameless([""]);
    assert LeakingRow(REMOVING_NEW, candidate, [""], ROW_Y);
    WidenedExactly(REMOVING_OLD, REMOVING_NEW, STRIP, BOUNDED_KEY) by {
      SimpleName("org/m");
    }
    LeakReaches(REMOVING_OLD, REMOVING_NEW, STRIP, BOUNDED_KEY, ROW_X, "x");
    LeakReaches(REMOVING_OLD, REMOVING_NEW, STRIP, BOUNDED_KEY, ROW_Y, "y");
  }

  lemma PlainChannel(c: Channel)
    requires c in {PLAIN_OLD, PLAIN_NEW}
    ensures PlainModels(c)
  {
    hide FinalUpstreams, Usable;
    forall row | row in c.table ensures PlainRow(c, row) {
      TheUpstreams(c, row);
      SimpleUsable(row.redirect);
    }
  }

  /** Without the rule the same refresh bounds the key to the upstream it had. */
  lemma BoundaryWitness()
    ensures RefreshedTable(PLAIN_OLD.table, STRIP) == PLAIN_NEW.table
    ensures Subject(OPEN_KEY) && Renames(PLAIN_OLD.table, PLAIN_NEW.table, STRIP) != map[]
    ensures PlainModels(PLAIN_OLD) && PlainModels(PLAIN_NEW)
    ensures Rebuilt(PLAIN_OLD, PLAIN_NEW, STRIP, OPEN_KEY) && !Nameless(OldTargets(PLAIN_OLD, OPEN_KEY))
    ensures var after := ScopeAfter(PLAIN_OLD, PLAIN_NEW, STRIP, OPEN_KEY);
      Reaches(PLAIN_NEW, after, "x") && !Reaches(PLAIN_NEW, after, "y")
  {
    hide Routing, TrimSpace, Lower, Renames, FinalUpstreams, Targets, NewAllowed, OldTargets, RemapScope,
         RefreshedTable, AllowsModel, AllowsUpstream, DetectedName, PlainModels;
    TheRefresh();
    TheRenames();
    assert "org/m" in Renames(OLD_TABLE, NEW_TABLE, STRIP);
    PlainChannel(PLAIN_OLD);
    PlainChannel(PLAIN_NEW);
    TheAllowlist(OPEN_KEY);
    OpenTargets();
    TheUpstreams(PLAIN_NEW, ROW_X);
    TheUpstreams(PLAIN_NEW, ROW_Y);
    var candidate := Renamed(PLAIN_OLD, PLAIN_NEW, STRIP, OPEN_KEY);
    NewNameAllowed(candidate);
    OpenRebuilt(candidate);
    NamedTargets(["x", "x"]);
    LeakReaches(PLAIN_OLD, PLAIN_NEW, STRIP, OPEN_KEY, ROW_X, "x");
    var after := ScopeAfter(PLAIN_OLD, PLAIN_NEW, STRIP, OPEN_KEY);
    assert ROW_X in NEW_TABLE && "x" in FinalUpstreams(PLAIN_NEW, ROW_X);
    OldTargetsAreReachable(PLAIN_OLD, OPEN_KEY);
    if Reaches(PLAIN_NEW, after, "y") {
      NoWidening(PLAIN_OLD, PLAIN_NEW, STRIP, OPEN_KEY, "y") by { SimpleName("org/m"); }
      assert false;
    }
  }

  lemma NamedTargets(targets: seq<string>)
    requires targets == ["x", "x"]
    ensures !Nameless(targets) && Admits(targets, "x")
  {
    hide Routing, DetectedName, Lower;
    SimpleUsable("x");
    assert DetectedName(targets[0]).Some? && Matches(targets[0], "x");
  }

  /** The second row offends: the open key would gain "y". */
  lemma OpenRebuilt(candidate: Scope)
    requires candidate == OPEN_KEY.(allowed := ["m"])
    ensures Offending(PLAIN_NEW, candidate, OPEN_KEY, ["x", "x"])
  {
    hide Routing, Lower, FinalUpstreams, AllowsModel;
    TheNames();
    SimpleName("x");
    SimpleName("y");
    TheUpstreams(PLAIN_NEW, ROW_Y);
    NewNameAllowed(candidate);
    assert "y" in FinalUpstreams(PLAIN_NEW, ROW_Y) && !InFold(["x", "x"], "y");
    assert Offends(PLAIN_NEW, candidate, OPEN_KEY, ["x", "x"], ROW_Y);
  }
}
