/** Which probe speaks for a key, and exactly which models and upstreams its discovered scope lists. */
module ModelApplyLaws {
  import opened Names
  import opened ModelTable
  import opened Seqs
  import opened ModelSave
  import opened KeyScopes
  import opened KeyScopesLaws
  import opened ModelProbes
  import opened ModelApply

  // ---- which probe speaks for a key ----------------------------------------------------------

  /** Probe `i` is the last one made with this key row and this credential. */
  ghost predicate SpeaksFor(probes: seq<Probe>, key: ApiKey, i: nat) {
    && i < |probes| && probes[i].id == key.id && probes[i].apiKey == key.apiKey
    && forall j :: i < j < |probes| ==> probes[j].id != key.id || probes[j].apiKey != key.apiKey
  }

  /** That probe succeeded, and when merging the key's scope came from discovery. */
  ghost predicate Refreshing(probes: seq<Probe>, merge: bool, key: ApiKey, i: nat) {
    SpeaksFor(probes, key, i) && TrimSpace(probes[i].error) == "" && (merge ==> key.scope.auto)
  }

  lemma {:induction false} LastProbeIs(probes: seq<Probe>, key: ApiKey)
    ensures LastProbe(probes, key.id, key.apiKey).None? ==> forall i :: !SpeaksFor(probes, key, i)
    ensures LastProbe(probes, key.id, key.apiKey).Some? ==>
      exists i :: 0 <= i < |probes| && SpeaksFor(probes, key, i) &&
          LastProbe(probes, key.id, key.apiKey) == Some(probes[i])
  {
    if probes != [] {
      var front, n := probes[..|probes| - 1], |probes| - 1;
      assert forall i :: 0 <= i < n ==> front[i] == probes[i];
      if probes[n].id == key.id && probes[n].apiKey == key.apiKey {
        assert SpeaksFor(probes, key, n);
      } else {
        LastProbeIs(front, key);
        forall i: nat ensures SpeaksFor(probes, key, i) <==> SpeaksFor(front, key, i) {}
      }
    }
  }

  /** A key is refreshed exactly if the probe that speaks for it succeeded, and merging only if its scope came from
      discovery; then it ends with what that probe found, and otherwise with its renamed scope. */
  lemma FinalScopeTell(previous: Channel, current: Channel, o: Options, protocols: seq<bool>, probes: seq<Probe>,
                       merge: bool, key: ApiKey)
    ensures var after := FinalScope(previous, current, o, protocols, probes, merge, key);
      && (forall i: nat :: Refreshing(probes, merge, key, i) ==>
            after == DiscoveredScope(current, protocols, probes[i].models, key.scope))
      && ((forall i: nat :: !Refreshing(probes, merge, key, i)) ==>
            after == if o.lowercase || o.stripPrefix then ScopeAfter(previous, current, o, key.scope) else key.scope)
  {
    hide DiscoveredScope, ScopeAfter, TrimSpace;
    LastProbeIs(probes, key);
    hide LastProbe;
    forall i: nat, j: nat | SpeaksFor(probes, key, i) && SpeaksFor(probes, key, j) ensures i == j {}
    if LastProbe(probes, key.id, key.apiKey).Some? {
      var i :| 0 <= i < |probes| && SpeaksFor(probes, key, i) &&
               LastProbe(probes, key.id, key.apiKey) == Some(probes[i]);
      assert Refreshing(probes, merge, key, i) <==> Refreshes(probes, merge, key);
    }
  }

  // ---- lists of first spellings --------------------------------------------------------------

  /** The names in order, each once up to case, in its first spelling. */
  function Spellings(names: seq<string>): seq<string> {
    if names == [] then [] else Note(Spellings(names[..|names| - 1]), names[|names| - 1])
  }

  /** Name `i` is the first of its spelling. */
  ghost predicate FirstSpelt(names: seq<string>, i: nat) {
    i < |names| && forall j :: 0 <= j < i ==> !EqualFold(names[j], names[i])
  }

  ghost predicate SpellingsAt(names: seq<string>, at: seq<nat>) {
    && |at| == |Spellings(names)| && Ascends(at)
    && (forall k :: 0 <= k < |at| ==> at[k] < |names| && Spellings(names)[k] == names[at[k]])
    && (forall i: nat :: i in at <==> FirstSpelt(names, i))
  }

  predicate Ascends(at: seq<nat>) {
    forall i, j :: 0 <= i < j < |at| ==> at[i] < at[j]
  }

  lemma {:induction false} SpellingsFold(names: seq<string>)
    ensures forall x :: InFold(Spellings(names), x) <==> InFold(names, x)
  {
    hide EqualFold, InFold, Spellings;
    if names == [] {
      NothingSpelt();
    } else {
      assert names == names[..|names| - 1] + [names[|names| - 1]];
      SpellingsFold(names[..|names| - 1]);
      SpellingAdded(names[..|names| - 1], names[|names| - 1]);
    }
  }

  lemma {:induction false} SpellingsExactly(names: seq<string>) returns (at: seq<nat>)
    ensures SpellingsAt(names, at)
  {
    hide EqualFold, InFold, SpellingsAt, Spellings;
    if names == [] {
      at := [];
      assert SpellingsAt([], []) by { NothingSpelt(); }
    } else {
      var front, name := names[..|names| - 1], names[|names| - 1];
      assert names == front + [name];
      at := SpellingsExactly(front);
      SpellingsFold(front);
      SpellingsStep(front, name, at);
      if !InFold(front, name) { at := at + [|front|]; }
    }
  }

  lemma SpellingsStep(front: seq<string>, name: string, at: seq<nat>)
    requires SpellingsAt(front, at) && (InFold(Spellings(front), name) <==> InFold(front, name))
    ensures SpellingsAt(front + [name], if InFold(front, name) then at else at + [|front|])
  {
    hide EqualFold, Note, Spellings, FirstSpelt, InFold;
    var names, n, known := front + [name], |front|, InFold(front, name);
    assert Spellings(names) == if known then Spellings(front) else Spellings(front) + [name] by {
      SpellingAdded(front, name);
    }
    FirstAdded(front, name);
    forall k | 0 <= k < |at| ensures at[k] in at && at[k] < n {}
    var longer := if known then at else at + [n];
    forall i: nat ensures i in longer <==> FirstSpelt(names, i) {
      assert i in longer <==> i in at || (!known && i == n);
    }
  }

  lemma SpellingAdded(front: seq<string>, name: string)
    ensures Spellings(front + [name]) ==
      if InFold(Spellings(front), name) then Spellings(front) else Spellings(front) + [name]
    ensures forall x :: InFold(front + [name], x) <==> InFold(front, x) || EqualFold(name, x)
    ensures forall x :: InFold(Spellings(front + [name]), x) <==>
      InFold(Spellings(front), x) || (!InFold(Spellings(front), name) && EqualFold(name, x))
    ensures InFold(Spellings(front), name) ==> forall x :: EqualFold(name, x) ==> InFold(Spellings(front), x)
  {
    hide EqualFold;
    assert (front + [name])[..|front|] == front && (front + [name])[|front|] == name;
    InFoldStep(Spellings(front), name);
    InFoldStep(front, name);
    FoldsSymmetric();
  }

  lemma FirstAdded(front: seq<string>, name: string)
    ensures forall i: nat | i < |front| :: FirstSpelt(front + [name], i) <==> FirstSpelt(front, i)
    ensures forall i: nat :: FirstSpelt(front, i) ==> i < |front|
    ensures forall i: nat :: FirstSpelt(front + [name], i) ==> i <= |front|
    ensures FirstSpelt(front + [name], |front|) <==> !InFold(front, name)
  {
    hide EqualFold;
    var names := front + [name];
    assert names[|front|] == name && forall j :: 0 <= j < |front| ==> names[j] == front[j];
  }

  lemma FoldsSymmetric()
    ensures forall a, b :: EqualFold(a, b) <==> EqualFold(b, a)
    ensures forall a, b, c :: EqualFold(a, b) && EqualFold(b, c) ==> EqualFold(a, c)
  {
    hide Lower;
  }

  // ---- what a probe finds --------------------------------------------------------------------

  /** The upstream a row is sent as under one protocol: with Gemini the URL names it, otherwise the body, after
      its rules. */
  function SentAs(c: Channel, row: ModelEntry, gemini: bool): string {
    var actual := ResolveActual(c.table, TrimSpace(row.model), row);
    if gemini then Routing(actual) else Routing(AfterBodyRules(actual, c.rules))
  }

  /** The probe reported a model that routes as this name, up to case. */
  ghost predicate Reported(models: Table, name: string) {
    exists e :: e in models && Routing(TrimSpace(e.Target())) != "" && EqualFold(Routing(TrimSpace(e.Target())), name)
  }

  /** The row has a name, and under this protocol is sent as a model the probe reported. */
  ghost predicate Hit(c: Channel, models: Table, row: ModelEntry, gemini: bool) {
    TrimSpace(row.model) != "" && Reported(models, SentAs(c, row, gemini))
  }

  /** The names of the hits of one row, one for each protocol that hits. */
  ghost function RowHits(c: Channel, models: Table, row: ModelEntry, protocols: seq<bool>, upstreams: bool): seq<string>
    decreases |protocols|
  {
    if protocols == [] then []
    else
      var g := protocols[|protocols| - 1];
      RowHits(c, models, row, protocols[..|protocols| - 1], upstreams) +
      if Hit(c, models, row, g) then [if upstreams then SentAs(c, row, g) else TrimSpace(row.model)] else []
  }

  /** The same for rows in table order. */
  ghost function Hits(c: Channel, models: Table, rows: Table, protocols: seq<bool>, upstreams: bool): seq<string>
    decreases |rows|
  {
    if rows == [] then []
    else Hits(c, models, rows[..|rows| - 1], protocols, upstreams) +
         RowHits(c, models, rows[|rows| - 1], protocols, upstreams)
  }

  lemma ReportedExactly(models: Table, name: string)
    ensures Lower(name) in ProbedNames(models) <==> Reported(models, name)
  {
    hide Lower, Routing, TrimSpace;
  }

  lemma SpellingsMore(names: seq<string>, more: seq<string>)
    requires |more| <= 1
    ensures Spellings(names + more) == if more == [] then Spellings(names) else Note(Spellings(names), more[0])
  {
    hide Note;
    if more == [] {
      assert names + more == names;
    } else {
      assert (names + more)[..|names|] == names && (names + more)[|names|] == more[0];
    }
  }

  lemma {:induction false} RowFoundIs(c: Channel, models: Table, row: ModelEntry, protocols: seq<bool>, before: Found,
                                      names: seq<string>, actuals: seq<string>)
    requires TrimSpace(row.model) != "" && before == Found(Spellings(names), Spellings(actuals))
    ensures RowFound(c, ProbedNames(models), row, protocols, before) ==
            Found(Spellings(names + RowHits(c, models, row, protocols, false)),
                  Spellings(actuals + RowHits(c, models, row, protocols, true)))
    decreases |protocols|
  {
    hide Lower, Routing, TrimSpace, Note, Spellings, ResolveActual, AfterBodyRules, Reported, ProbedNames;
    if protocols == [] {
      assert names + [] == names && actuals + [] == actuals;
    } else {
      var front, g := protocols[..|protocols| - 1], protocols[|protocols| - 1];
      RowFoundIs(c, models, row, front, before, names, actuals);
      ReportedExactly(models, SentAs(c, row, g));
      var n, a := RowHits(c, models, row, front, false), RowHits(c, models, row, front, true);
      var dn: seq<string> := if Hit(c, models, row, g) then [TrimSpace(row.model)] else [];
      var da: seq<string> := if Hit(c, models, row, g) then [SentAs(c, row, g)] else [];
      assert names + (n + dn) == names + n + dn && actuals + (a + da) == actuals + a + da;
      SpellingsMore(names + n, dn);
      SpellingsMore(actuals + a, da);
    }
  }

  lemma {:induction false} NoHits(c: Channel, models: Table, row: ModelEntry, protocols: seq<bool>, upstreams: bool)
    requires TrimSpace(row.model) == ""
    ensures RowHits(c, models, row, protocols, upstreams) == []
    decreases |protocols|
  {
    hide SentAs, Reported;
    if protocols != [] { NoHits(c, models, row, protocols[..|protocols| - 1], upstreams); }
  }

  lemma {:induction false} TableFoundIs(c: Channel, models: Table, protocols: seq<bool>, rows: Table)
    ensures TableFound(c, ProbedNames(models), protocols, rows) ==
            Found(Spellings(Hits(c, models, rows, protocols, false)), Spellings(Hits(c, models, rows, protocols, true)))
    decreases |rows|
  {
    hide RowFound, RowHits, ProbedNames, TrimSpace, Spellings;
    if rows == [] {
      assert Spellings([]) == [] by { NothingSpelt(); }
    } else {
      var front, row := rows[..|rows| - 1], rows[|rows| - 1];
      TableFoundIs(c, models, protocols, front);
      var names, actuals := Hits(c, models, front, protocols, false), Hits(c, models, front, protocols, true);
      if TrimSpace(row.model) == "" {
        NoHits(c, models, row, protocols, false);
        NoHits(c, models, row, protocols, true);
        assert names + [] == names && actuals + [] == actuals;
      } else {
        RowFoundIs(c, models, row, protocols, Found(Spellings(names), Spellings(actuals)), names, actuals);
      }
    }
  }

  lemma NothingSpelt()
    ensures Spellings([]) == [] && SpellingsAt([], [])
    ensures forall x :: InFold([], x) <==> InFold(Spellings([]), x)
  {
  }

  lemma {:induction false} RowHitsTell(c: Channel, models: Table, row: ModelEntry, protocols: seq<bool>,
                                       upstreams: bool)
    ensures forall x :: x in RowHits(c, models, row, protocols, upstreams) <==>
      exists g :: g in protocols && Hit(c, models, row, g) &&
                  x == if upstreams then SentAs(c, row, g) else TrimSpace(row.model)
    decreases |protocols|
  {
    hide Hit, SentAs, TrimSpace;
    if protocols != [] {
      RowHitsTell(c, models, row, protocols[..|protocols| - 1], upstreams);
      assert protocols == protocols[..|protocols| - 1] + [protocols[|protocols| - 1]];
    }
  }

  lemma {:induction false} HitsTell(c: Channel, models: Table, rows: Table, protocols: seq<bool>, upstreams: bool)
    ensures forall x :: x in Hits(c, models, rows, protocols, upstreams) <==>
      exists row, g :: row in rows && g in protocols && Hit(c, models, row, g) &&
                       x == if upstreams then SentAs(c, row, g) else TrimSpace(row.model)
    decreases |rows|
  {
    hide Hit, SentAs, RowHits, TrimSpace;
    if rows != [] {
      HitsTell(c, models, rows[..|rows| - 1], protocols, upstreams);
      RowHitsTell(c, models, rows[|rows| - 1], protocols, upstreams);
      assert rows == rows[..|rows| - 1] + [rows[|rows| - 1]];
    }
  }

  /** A discovered scope allows the names of the rows that hit, and detects the upstreams they are sent as, each in
      its first spelling and in table order; it is empty exactly if nothing hits, and then disabled. */
  lemma DiscoveredExactly(c: Channel, protocols: seq<bool>, models: Table, s: Scope)
    ensures var scope := DiscoveredScope(c, protocols, models, s);
      && scope.allowed == Spellings(Hits(c, models, c.table, protocols, false))
      && scope.detected == Spellings(Hits(c, models, c.table, protocols, true))
      && (scope.empty <==> forall row, g :: row in c.table && g in protocols ==> !Hit(c, models, row, g))
      && scope.auto && (scope.disabled <==> scope.empty || (s.disabled && !s.empty))
  {
    hide Hits, Spellings, TableFound, Hit, SentAs, TrimSpace;
    HitsTell(c, models, c.table, protocols, false);
    TableFoundIs(c, models, protocols, c.table);
    var names := Hits(c, models, c.table, protocols, false);
    if models == [] {
      NothingReported(c, protocols);
      assert Spellings([]) == [] by { NothingSpelt(); }
    }
    SpellingsFold(names);
    if names != [] {
      assert names[0] in names;
      assert InFold(names, names[0]) by { FoldsSymmetric(); SelfFold(names); }
    } else {
      assert Spellings([]) == [] by { NothingSpelt(); }
    }
    if exists row, g :: row in c.table && g in protocols && Hit(c, models, row, g) {
      var row, g :| row in c.table && g in protocols && Hit(c, models, row, g);
      assert TrimSpace(row.model) in names;
    }
  }

  lemma SelfFold(names: seq<string>)
    requires names != []
    ensures InFold(names, names[0])
  {
    assert EqualFold(names[0], names[0]);
  }

  lemma NothingReported(c: Channel, protocols: seq<bool>)
    ensures forall upstreams :: Hits(c, [], c.table, protocols, upstreams) == []
  {
    forall upstreams ensures Hits(c, [], c.table, protocols, upstreams) == [] {
      NeverHits(c, c.table, protocols, upstreams);
    }
  }

  lemma {:induction false} NeverHits(c: Channel, rows: Table, protocols: seq<bool>, upstreams: bool)
    ensures Hits(c, [], rows, protocols, upstreams) == []
    decreases |rows|
  {
    if rows != [] {
      NeverHits(c, rows[..|rows| - 1], protocols, upstreams);
      RowNeverHits(c, rows[|rows| - 1], protocols, upstreams);
    }
  }

  lemma {:induction false} RowNeverHits(c: Channel, row: ModelEntry, protocols: seq<bool>, upstreams: bool)
    ensures RowHits(c, [], row, protocols, upstreams) == []
    decreases |protocols|
  {
    hide SentAs, TrimSpace;
    if protocols != [] { RowNeverHits(c, row, protocols[..|protocols| - 1], upstreams); }
  }

  /** A usable name in a list of detected models: trimmed, routed, not blank and without control characters. */
  function UsableName(value: string): Option<string> {
    var name := Routing(TrimSpace(value));
    if name != "" && forall i :: 0 <= i < |name| ==> name[i] !in {'\0', '\r', '\n'} then Some(name) else None
  }

  /** A list of detected models holds the usable names, each in its first spelling. */
  lemma {:induction false} DetectedAreSpellings(values: seq<string>)
    ensures NormalizeDetected(values) == Spellings(FilterMap(UsableName, values))
  {
    hide Routing, TrimSpace, Note;
    if values == [] {
      NothingSpelt();
      assert FilterMap(UsableName, values) == [];
    } else {
      var front, value := values[..|values| - 1], values[|values| - 1];
      assert values == front + [value];
      DetectedAreSpellings(front);
      FilterMapStep(UsableName, front, value);
      assert DetectedName(value) == UsableName(value);
      hide UsableName, DetectedName, FilterMap;
      var name := UsableName(value);
      if name.Some? {
        SpellingsMore(FilterMap(UsableName, front), [name.value]);
        assert Note(NormalizeDetected(front), name.value) ==
               if InFold(NormalizeDetected(front), name.value) then NormalizeDetected(front)
               else NormalizeDetected(front) + [name.value] by { NoteIs(NormalizeDetected(front), name.value); }
      }
    }
  }

  lemma NoteIs(names: seq<string>, name: string)
    ensures Note(names, name) == if InFold(names, name) then names else names + [name]
  {
  }

  /** The scope the key's probe found has a list that is too long. */
  predicate TooLarge(c: Channel, protocols: seq<bool>, fits: seq<string> -> bool, probes: seq<Probe>, merge: bool,
                     key: ApiKey) {
    Refreshes(probes, merge, key) &&
    var scope := DiscoveredScope(c, protocols, Refresher(probes, merge, key).value.models, key.scope);
    !fits(scope.detected) || !fits(scope.allowed)
  }

  /** No scope is written at all exactly if some key's discovered lists do not fit. */
  lemma {:induction false} AllFitExactly(c: Channel, protocols: seq<bool>, fits: seq<string> -> bool,
                                         probes: seq<Probe>, merge: bool, keys: seq<ApiKey>)
    ensures FetchedScopes(c, protocols, fits, probes, merge, keys).None? <==>
      exists key :: key in keys && TooLarge(c, protocols, fits, probes, merge, key)
    decreases |keys|
  {
    hide TooLarge, FetchedScopes;
    if keys == [] {
      NoScopes(c, protocols, fits, probes, merge);
    } else {
      var front, last := keys[..|keys| - 1], keys[|keys| - 1];
      assert keys == front + [last];
      AllFitExactly(c, protocols, fits, probes, merge, front);
      OneMoreFits(c, protocols, fits, probes, merge, keys);
    }
  }

  lemma OneMoreFits(c: Channel, protocols: seq<bool>, fits: seq<string> -> bool, probes: seq<Probe>, merge: bool,
                    keys: seq<ApiKey>)
    requires keys != []
    ensures FetchedScopes(c, protocols, fits, probes, merge, keys).None? <==>
      FetchedScopes(c, protocols, fits, probes, merge, keys[..|keys| - 1]).None? ||
      TooLarge(c, protocols, fits, probes, merge, keys[|keys| - 1])
  {
    hide DiscoveredScope, Failed;
  }
}
