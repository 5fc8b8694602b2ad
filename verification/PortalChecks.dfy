/**
 What the two checks of scripts/validate-portal-allowlists.py ask of one server, as
 conditions on its counts and its names: an entry passes exactly when they hold.
 */
module PortalChecks {
  import opened Wrappers
  import opened Seqs
  import opened JsonDocs
  import opened PortalValidator

  // ---------------------------------------------------------------- what is enabled

  /** The entry is there, and is this. */
  predicate Has(doc: Json, key: string, value: Json) {
    doc.Obj? && key in doc.fields && doc.fields[key] == value
  }

  /** The positions of the enabled entries. */
  function Enabled(tools: seq<Json>): set<int> {
    set i | 0 <= i < |tools| && Has(tools[i], "enabled", Bool(true))
  }

  lemma {:induction false} CountOnExactly(tools: seq<Json>)
    ensures CountOn(tools) == |Enabled(tools)|
  {
    if tools != [] {
      var n := |tools| - 1;
      CountOnExactly(tools[..n]);
      var (before, all) := (Enabled(tools[..n]), Enabled(tools));
      assert forall i :: 0 <= i < n ==> tools[..n][i] == tools[i];
      assert n !in before;
      assert all == before + (if Has(tools[n], "enabled", Bool(true)) then {n} else {});
    }
  }

  /** Every enabled entry that has a name has one of these. */
  ghost predicate EnablesOnly(tools: seq<Json>, names: seq<Json>) {
    forall i, name :: 0 <= i < |tools| && Has(tools[i], "enabled", Bool(true)) && Has(tools[i], "name", Str(name)) ==>
      Str(name) in names
  }

  lemma NamesOnExactly(tools: seq<Json>, names: seq<Json>)
    ensures NamesOn(tools) <= Texts(names) <==> EnablesOnly(tools, names)
  {
    assert forall name :: name in Texts(names) <==> Str(name) in names by {
      forall name ensures name in Texts(names) <==> Str(name) in names {
        if Str(name) in names {
          var i :| 0 <= i < |names| && names[i] == Str(name);
        }
      }
    }
    if NamesOn(tools) <= Texts(names) {
      forall i, name | 0 <= i < |tools| && Has(tools[i], "enabled", Bool(true)) && Has(tools[i], "name", Str(name))
        ensures Str(name) in names
      {
        assert name in NamesOn(tools);
      }
    }
    if EnablesOnly(tools, names) {
      forall name | name in NamesOn(tools) ensures name in Texts(names) {
        var i :| 0 <= i < |tools| && IsOn(tools[i]) && Get(tools[i], "name") == Some(Str(name));
        assert Has(tools[i], "enabled", Bool(true)) && Has(tools[i], "name", Str(name));
      }
    }
  }

  // ---------------------------------------------------------------- a list of names, and its count

  /** So many different names, none of them empty. */
  ghost predicate AreNames(list: Json, count: int) {
    && list.Arr? && |list.items| == count
    && (forall i :: 0 <= i < count ==> exists name :: name != "" && list.items[i] == Str(name))
    && (forall i, j :: 0 <= i < j < count ==> list.items[i] != list.items[j])
  }

  lemma {:induction false} TextsCount(items: seq<Json>)
    requires Distinct(items) && forall i :: 0 <= i < |items| ==> items[i].Str?
    ensures |Texts(items)| == |items|
  {
    if items != [] {
      var n := |items| - 1;
      TextsCount(items[..n]);
      assert forall i :: 0 <= i < n ==> items[..n][i] == items[i];
      var (before, all) := (Texts(items[..n]), Texts(items));
      assert items[n].s !in before;
      assert all == before + {items[n].s};
    }
  }

  lemma NamesExactly(list: Json, count: int)
    ensures AreNames(list, count) <==> NonEmptyStrings(list) && Distinct(list.items) && |Texts(list.items)| == count
  {
    if NonEmptyStrings(list) && Distinct(list.items) {
      TextsCount(list.items);
      forall i | 0 <= i < |list.items| ensures exists name :: name != "" && list.items[i] == Str(name) {
        assert list.items[i] == Str(list.items[i].s);
      }
    }
    if AreNames(list, count) {
      assert NonEmptyStrings(list) && Distinct(list.items);
      TextsCount(list.items);
    }
  }

  // ---------------------------------------------------------------- check_baseline

  /** The four counts. */
  ghost predicate HasCounts(b: Json, toolsTotal: int, tools: int, promptsTotal: int, prompts: int) {
    && Has(b, "tools_total", Num(toolsTotal)) && Has(b, "tools_enabled", Num(tools))
    && Has(b, "prompts_total", Num(promptsTotal)) && Has(b, "prompts_enabled", Num(prompts))
  }

  /** The enabled tools are named, each once, and nothing else is enabled, not even twice. */
  ghost predicate ToolsFit(tools: seq<Json>, b: Json, count: int)
    requires b.Obj?
  {
    && "enabled_tools" in b.fields && AreNames(b.fields["enabled_tools"], count)
    && EnablesOnly(tools, b.fields["enabled_tools"].items) && |Enabled(tools)| <= count
  }

  /** The same for a list of prompts; none may be enabled when the baseline names none. */
  ghost predicate PromptsFit(prompts: seq<Json>, b: Json, count: int)
    requires b.Obj?
  {
    var allowed := if "enabled_prompts" in b.fields then b.fields["enabled_prompts"] else Arr([]);
    AreNames(allowed, count) && EnablesOnly(prompts, allowed.items) && |Enabled(prompts)| <= count
  }

  /** No list of prompts means that all of them are shown. */
  ghost predicate OverrideFits(s: Json, b: Json, total: int, count: int)
    requires s.Obj? && b.Obj?
  {
    if "updated_prompts" !in s.fields || s.fields["updated_prompts"] == Null then total <= count
    else s.fields["updated_prompts"].Arr? ==> PromptsFit(s.fields["updated_prompts"].items, b, count)
  }

  lemma ToolsFitExactly(tools: seq<Json>, b: Json, sid: string)
    requires CountsAreInts(b)
    ensures EnabledToolsProblems(b, sid) == [] && WideningProblems(tools, b, sid) == []
       <==> ToolsFit(tools, b, Get(b, "tools_enabled").value.n)
  {
    CountOnExactly(tools);
    if Get(b, "enabled_tools").Some? {
      var names := Get(b, "enabled_tools").value;
      NamesExactly(names, Get(b, "tools_enabled").value.n);
      if names.Arr? {
        NamesOnExactly(tools, names.items);
      }
    }
  }

  lemma PromptsFitExactly(prompts: seq<Json>, b: Json, sid: string)
    requires CountsAreInts(b)
    ensures PromptListProblems(prompts, b, sid) == [] <==> PromptsFit(prompts, b, Get(b, "prompts_enabled").value.n)
  {
    CountOnExactly(prompts);
    var allowed := if Get(b, "enabled_prompts").Some? then Get(b, "enabled_prompts").value else Arr([]);
    NamesExactly(allowed, Get(b, "prompts_enabled").value.n);
    if allowed.Arr? {
      NamesOnExactly(prompts, allowed.items);
    }
  }

  lemma OverrideFitsExactly(s: Json, b: Json, sid: string)
    requires s.Obj? && CountsAreInts(b)
    ensures PromptProblems(s, b, sid) == []
       <==> OverrideFits(s, b, Get(b, "prompts_total").value.n, Get(b, "prompts_enabled").value.n)
  {
    match Get(s, "updated_prompts")
    case Some(Arr(prompts)) => PromptsFitExactly(prompts, b, sid);
    case _ =>
  }

  /** A server's baseline entry passes exactly when its counts and its names fit what is enabled. */
  lemma BaselineEntryExactly(s: Json, tools: seq<Json>, b: Json, sid: string)
    requires s.Obj?
    ensures BaselineEntryProblems(s, tools, b, sid) == [] <==>
      exists toolsTotal, enabled, promptsTotal, prompts ::
        && HasCounts(b, toolsTotal, enabled, promptsTotal, prompts)
        && ToolsFit(tools, b, enabled) && OverrideFits(s, b, promptsTotal, prompts)
  {
    if CountsAreInts(b) {
      var (total, on) := (Get(b, "tools_total").value.n, Get(b, "tools_enabled").value.n);
      var (promptsTotal, promptsOn) := (Get(b, "prompts_total").value.n, Get(b, "prompts_enabled").value.n);
      assert HasCounts(b, total, on, promptsTotal, promptsOn);
      ToolsFitExactly(tools, b, sid);
      OverrideFitsExactly(s, b, sid);
    }
  }

  // ---------------------------------------------------------------- check_catalogue

  /** Names, each once; and a decision for each wherever there is a list of decisions. */
  ghost predicate CatalogueFits(files: Files, s: Json, names: Json, sid: string) {
    && names.Arr? && names.items != [] && AreNames(names, |names.items|)
    && forall tools :: s.Obj? && Decides(files, s, sid, tools) && tools != [] ==>
         forall name :: name in names.items ==> exists i :: 0 <= i < |tools| && Has(tools[i], "name", name)
  }

  /** The list of decisions: a vendored server's file, any other's own entry. */
  predicate Decides(files: Files, s: Json, sid: string, tools: seq<Json>) {
    if Has(s, "vendored", Bool(true)) then sid in files && Has(files[sid], "tools", Arr(tools))
    else Has(s, "updated_tools", Arr(tools))
  }

  lemma DecidesExactly(files: Files, s: Json, sid: string)
    ensures ToolsOf(files, s, sid).Some? ==> Decides(files, s, sid, ToolsOf(files, s, sid).value)
    ensures forall tools :: Decides(files, s, sid, tools) ==> ToolsOf(files, s, sid) == Some(tools)
  {
  }

  lemma UndecidedExactly(names: seq<Json>, tools: seq<Json>)
    ensures Undecided(names, tools) == []
       <==> forall name :: name in names ==> exists i :: 0 <= i < |tools| && Has(tools[i], "name", name)
  {
    forall name ensures DecidedIn(tools, name) <==> exists i :: 0 <= i < |tools| && Has(tools[i], "name", name) {
      if DecidedIn(tools, name) {
        var i :| 0 <= i < |tools| && Get(tools[i], "name") == Some(name);
        assert Has(tools[i], "name", name);
      }
      if i :| 0 <= i < |tools| && Has(tools[i], "name", name) {
        assert Get(tools[i], "name") == Some(name);
      }
    }
    if Undecided(names, tools) != [] {
      assert Undecided(names, tools)[0] in Undecided(names, tools);
    }
  }

  /** A server's catalogue entry passes exactly when it lists names, each once, and all of them are decided. */
  lemma CatalogueEntryExactly(files: Files, s: Json, names: Json, sid: string)
    ensures CatalogueEntryProblems(files, s, names, sid) == [] <==> CatalogueFits(files, s, names, sid)
  {
    if names.Arr? {
      NamesExactly(names, |names.items|);
      if NonEmptyStrings(names) && Distinct(names.items) {
        TextsCount(names.items);
      }
      DecidesExactly(files, s, sid);
      if ToolsOf(files, s, sid).Some? {
        UndecidedExactly(names.items, ToolsOf(files, s, sid).value);
      }
    }
  }

  // ---------------------------------------------------------------- the whole checks

  /** The top-level servers object. */
  predicate HasServers(doc: Json, entries: map<string, Json>) {
    Has(doc, "servers", Obj(entries))
  }

  lemma ServersExactly(doc: Json)
    ensures ServersOf(doc).Some? ==> HasServers(doc, ServersOf(doc).value)
    ensures forall entries :: HasServers(doc, entries) ==> ServersOf(doc) == Some(entries)
  {
  }

  /** The catalogue check passes exactly when it lists every mapped server, no other, and each entry fits. */
  lemma CatalogueCheckExactly(files: Files, servers: Servers, catalogue: Json)
    ensures CataloguePasses(files, servers, catalogue) <==>
      exists entries :: HasServers(catalogue, entries) && entries.Keys == servers.Keys
                        && forall sid :: sid in servers ==> CatalogueFits(files, servers[sid], entries[sid], sid)
  {
    CataloguePassesEverywhere(files, servers, catalogue);
    ServersExactly(catalogue);
    if ServersOf(catalogue).Some? {
      var entries := ServersOf(catalogue).value;
      forall sid ensures NoCatalogueProblem(files, servers, catalogue, sid) <==>
          (sid in entries <==> sid in servers) && (sid in servers ==> CatalogueFits(files, servers[sid], entries[sid], sid)) {
        if sid in entries && sid in servers {
          CatalogueEntryExactly(files, servers[sid], entries[sid], sid);
        }
      }
      if forall sid :: NoCatalogueProblem(files, servers, catalogue, sid) {
        forall sid ensures sid in entries <==> sid in servers {
          assert NoCatalogueProblem(files, servers, catalogue, sid);
        }
        assert entries.Keys == servers.Keys;
      }
    }
  }

  /** If the server has a list of tools, its baseline entry fits them. */
  ghost predicate IsFit(files: Files, servers: Servers, entries: map<string, Json>, sid: string) {
    sid in servers && servers[sid].Obj? ==>
      forall tools :: Decides(files, servers[sid], sid, tools) ==>
        sid in entries && entries[sid].Obj? && EntryFits(servers[sid], tools, entries[sid])
  }

  ghost predicate EntryFits(s: Json, tools: seq<Json>, b: Json)
    requires s.Obj?
  {
    exists toolsTotal, enabled, promptsTotal, prompts ::
      && HasCounts(b, toolsTotal, enabled, promptsTotal, prompts)
      && ToolsFit(tools, b, enabled) && OverrideFits(s, b, promptsTotal, prompts)
  }

  /** The baseline check passes exactly when every server with a list of tools has an entry that fits it. */
  lemma BaselineCheckExactly(files: Files, servers: Servers, baseline: Json)
    ensures BaselinePasses(files, servers, baseline) <==>
      exists entries :: HasServers(baseline, entries) && forall sid :: IsFit(files, servers, entries, sid)
  {
    BaselinePassesEverywhere(files, servers, baseline);
    ServersExactly(baseline);
    if ServersOf(baseline).Some? {
      var entries := ServersOf(baseline).value;
      forall sid ensures NoBaselineProblem(files, servers, baseline, sid) <==> IsFit(files, servers, entries, sid) {
        ServerBaselineExactly(files, servers, entries, sid);
      }
    }
  }

  lemma ServerBaselineExactly(files: Files, servers: Servers, entries: map<string, Json>, sid: string)
    ensures (sid in servers ==> BaselineProblems(files, servers[sid], entries, sid) == [])
       <==> IsFit(files, servers, entries, sid)
  {
    if sid in servers && servers[sid].Obj? {
      var s := servers[sid];
      DecidesExactly(files, s, sid);
      var tools := ToolsOf(files, s, sid);
      if tools.Some? && sid in entries && entries[sid].Obj? {
        BaselineEntryExactly(s, tools.value, entries[sid], sid);
      }
    }
  }

  // ---------------------------------------------------------------- each finding

  /** What a catalogue entry is reported for. */
  ghost predicate IsFoundInCatalogue(files: Files, s: Json, names: Json, sid: string, p: Problem) {
    match p
    case MalformedCatalogue(at) => at == sid && !(AreAllNames(names) && names.items != [])
    case RepeatedInCatalogue(at) => at == sid && AreAllNames(names) && names.items != [] && Repeats(names.items)
    case UndecidedTools(at, missing) =>
      at == sid && AreAllNames(names) && names.items != [] && s.Obj? && missing != []
      && exists tools :: Decides(files, s, sid, tools) && tools != []
                         && forall n :: multiset(missing)[n] == if IsDecidedIn(tools, n) then 0 else multiset(names.items)[n]
    case _ => false
  }

  /** Texts, none of them empty. */
  predicate AreAllNames(names: Json) {
    names.Arr? && forall i :: 0 <= i < |names.items| ==> names.items[i].Str? && names.items[i].s != ""
  }

  predicate Repeats(items: seq<Json>) {
    exists i, j :: 0 <= i < j < |items| && items[i] == items[j]
  }

  predicate IsDecidedIn(tools: seq<Json>, name: Json) {
    exists i :: 0 <= i < |tools| && Has(tools[i], "name", name)
  }

  lemma {:induction false} UndecidedCounts(names: seq<Json>, tools: seq<Json>, n: Json)
    ensures n in Undecided(names, tools) <==> n in names && !IsDecidedIn(tools, n)
    ensures multiset(Undecided(names, tools))[n] == if IsDecidedIn(tools, n) then 0 else multiset(names)[n]
  {
    DecidedExactly(tools, n);
    if names != [] {
      UndecidedCounts(names[1..], tools, n);
      DecidedExactly(tools, names[0]);
      FirstAndRest(names);
      assert multiset(names)[n] == multiset([names[0]])[n] + multiset(names[1..])[n];
    }
  }

  lemma DecidedExactly(tools: seq<Json>, n: Json)
    ensures DecidedIn(tools, n) <==> IsDecidedIn(tools, n)
  {
    if DecidedIn(tools, n) {
      var i :| 0 <= i < |tools| && Get(tools[i], "name") == Some(n);
      assert Has(tools[i], "name", n);
    }
    if IsDecidedIn(tools, n) {
      var i :| 0 <= i < |tools| && Has(tools[i], "name", n);
      assert Get(tools[i], "name") == Some(n);
    }
  }

  /** Every finding about a catalogue entry is so, and names what it is about. */
  lemma CatalogueFindingIsSo(files: Files, s: Json, names: Json, sid: string, p: Problem)
    requires p in CatalogueEntryProblems(files, s, names, sid)
    ensures IsFoundInCatalogue(files, s, names, sid, p)
  {
    DecidesExactly(files, s, sid);
    if p.UndecidedTools? {
      var tools := ToolsOf(files, s, sid).value;
      forall n ensures multiset(p.names)[n] == if IsDecidedIn(tools, n) then 0 else multiset(names.items)[n] {
        UndecidedCounts(names.items, tools, n);
      }
    }
  }

  /** What a baseline entry is reported for. */
  ghost predicate IsFoundInBaseline(s: Json, tools: seq<Json>, b: Json, sid: string, p: Problem) {
    match p
    case NotIntegers(at) => at == sid && forall t, e, pt, pe :: !HasCounts(b, t, e, pt, pe)
    case MalformedEnabledTools(at) => at == sid && forall names :: Has(b, "enabled_tools", names) ==> !AreAllNames(names)
    case RepeatedEnabledTools(at) => at == sid && exists names :: IsNamesOf(b, "enabled_tools", names) && Repeats(names)
    case EnabledToolsMiscounted(at) =>
      at == sid && exists names, n :: IsNamesOf(b, "enabled_tools", names) && Has(b, "tools_enabled", Num(n))
                                      && |Different(names)| != n
    case UnlistedTools(at, found) =>
      at == sid && exists names :: IsNamesOf(b, "enabled_tools", names) && AreUnlisted(tools, names, found)
    case WidensTools(at, on) => at == sid && exists n :: Has(b, "tools_enabled", Num(n)) && on == |Enabled(tools)| && on > n
    case MalformedEnabledPrompts(at) =>
      at == sid && HasPrompts(s) && exists names :: Has(b, "enabled_prompts", names) && !AreAllNames(names)
    case RepeatedEnabledPrompts(at) => at == sid && HasPrompts(s) && exists names :: IsPromptsOf(b, names) && Repeats(names)
    case EnabledPromptsMiscounted(at) =>
      at == sid && HasPrompts(s) && exists names, n :: IsPromptsOf(b, names) && Has(b, "prompts_enabled", Num(n))
                                                       && |Different(names)| != n
    case UnlistedPrompts(at, found) =>
      at == sid && HasPrompts(s) && exists names :: IsPromptsOf(b, names) && AreUnlisted(Prompts(s), names, found)
    case WidensPrompts(at, on) =>
      at == sid && exists n :: Has(b, "prompts_enabled", Num(n)) && on > n
                               && if HasPrompts(s) then on == |Enabled(Prompts(s))| else Has(b, "prompts_total", Num(on))
    case _ => false
  }

  predicate HasPrompts(s: Json) {
    s.Obj? && "updated_prompts" in s.fields && s.fields["updated_prompts"].Arr?
  }

  function Prompts(s: Json): seq<Json>
    requires HasPrompts(s)
  {
    s.fields["updated_prompts"].items
  }

  predicate IsNamesOf(b: Json, key: string, names: seq<Json>) {
    Has(b, key, Arr(names)) && AreAllNames(Arr(names))
  }

  /** The named prompts; none when the baseline says nothing. */
  predicate IsPromptsOf(b: Json, names: seq<Json>) {
    b.Obj? && if "enabled_prompts" in b.fields then IsNamesOf(b, "enabled_prompts", names) else names == []
  }

  /** The texts among the items. */
  function Different(items: seq<Json>): set<Json> {
    set n | n in items && n.Str?
  }

  /** These names are enabled and not listed, and there are some. */
  ghost predicate AreUnlisted(tools: seq<Json>, names: seq<Json>, found: set<string>) {
    found != {} && forall name :: name in found <==>
      && Str(name) !in names
      && exists i :: 0 <= i < |tools| && Has(tools[i], "enabled", Bool(true)) && Has(tools[i], "name", Str(name))
  }

  lemma UnlistedExactly(tools: seq<Json>, names: seq<Json>)
    requires !(NamesOn(tools) <= Texts(names))
    ensures AreUnlisted(tools, names, NamesOn(tools) - Texts(names))
  {
    TextsExactly(names);
    var found := NamesOn(tools) - Texts(names);
    var missing :| missing in NamesOn(tools) && missing !in Texts(names);
    assert missing in found;
    forall name ensures name in NamesOn(tools) <==>
        exists i :: 0 <= i < |tools| && Has(tools[i], "enabled", Bool(true)) && Has(tools[i], "name", Str(name)) {
      if name in NamesOn(tools) {
        var i :| 0 <= i < |tools| && IsOn(tools[i]) && Get(tools[i], "name") == Some(Str(name));
        assert Has(tools[i], "enabled", Bool(true)) && Has(tools[i], "name", Str(name));
      }
      if i :| 0 <= i < |tools| && Has(tools[i], "enabled", Bool(true)) && Has(tools[i], "name", Str(name)) {
        assert IsOn(tools[i]) && Get(tools[i], "name") == Some(Str(name));
      }
    }
  }

  lemma TextsExactly(names: seq<Json>)
    ensures forall name :: name in Texts(names) <==> Str(name) in names
  {
    forall name ensures name in Texts(names) <==> Str(name) in names {
      if Str(name) in names {
        var i :| 0 <= i < |names| && names[i] == Str(name);
      }
    }
  }

  lemma OneMoreDifferent(front: seq<Json>, last: Json)
    ensures last.Str? ==> Texts(front + [last]) == Texts(front) + {last.s}
    ensures last.Str? ==> Different(front + [last]) == Different(front) + {last}
    ensures last.Str? ==> (last.s in Texts(front) <==> last in Different(front))
    ensures !last.Str? ==> Texts(front + [last]) == Texts(front) && Different(front + [last]) == Different(front)
  {
    TextsExactly(front);
    TextsExactly(front + [last]);
    assert forall n :: n in front + [last] <==> n in front || n == last;
  }

  lemma {:induction false} DifferentCounts(items: seq<Json>)
    ensures |Texts(items)| == |Different(items)|
  {
    if items != [] {
      var (front, last) := (items[..|items| - 1], items[|items| - 1]);
      DifferentCounts(front);
      OneMoreDifferent(front, last);
      assert front + [last] == items;
      if last.Str? && last.s !in Texts(front) {
        assert |Texts(items)| == |Texts(front)| + 1 && |Different(items)| == |Different(front)| + 1;
      } else if last.Str? {
        assert Texts(items) == Texts(front) && Different(items) == Different(front);
      }
    }
  }

  lemma ListFindingIsSo(s: Json, tools: seq<Json>, b: Json, sid: string, p: Problem)
    requires CountsAreInts(b) && p in EnabledToolsProblems(b, sid)
    ensures IsFoundInBaseline(s, tools, b, sid, p)
  {
    var n := Get(b, "tools_enabled").value.n;
    assert Has(b, "tools_enabled", Num(n));
    if !p.MalformedEnabledTools? {
      var names := Get(b, "enabled_tools").value.items;
      assert IsNamesOf(b, "enabled_tools", names);
      DifferentCounts(names);
    }
  }

  lemma WideningFindingIsSo(s: Json, tools: seq<Json>, b: Json, sid: string, p: Problem)
    requires CountsAreInts(b) && p in WideningProblems(tools, b, sid)
    ensures IsFoundInBaseline(s, tools, b, sid, p)
  {
    if p.UnlistedTools? {
      var names := Get(b, "enabled_tools").value.items;
      assert IsNamesOf(b, "enabled_tools", names);
      UnlistedExactly(tools, names);
    } else {
      CountOnExactly(tools);
      assert Has(b, "tools_enabled", Num(Get(b, "tools_enabled").value.n));
    }
  }

  lemma PromptListFindingIsSo(s: Json, tools: seq<Json>, b: Json, sid: string, p: Problem)
    requires HasPrompts(s) && CountsAreInts(b) && p in PromptListProblems(Prompts(s), b, sid)
    ensures IsFoundInBaseline(s, tools, b, sid, p)
  {
    if p.MalformedEnabledPrompts? {
      assert Has(b, "enabled_prompts", Get(b, "enabled_prompts").value);
    } else if p.WidensPrompts? {
      CountOnExactly(Prompts(s));
      assert Has(b, "prompts_enabled", Num(Get(b, "prompts_enabled").value.n));
    } else {
      NamedPromptsFindingIsSo(s, tools, b, sid, p);
    }
  }

  lemma NamedPromptsFindingIsSo(s: Json, tools: seq<Json>, b: Json, sid: string, p: Problem)
    requires HasPrompts(s) && CountsAreInts(b) && p in PromptListProblems(Prompts(s), b, sid)
    requires !p.MalformedEnabledPrompts? && !p.WidensPrompts?
    ensures IsFoundInBaseline(s, tools, b, sid, p)
  {
    var names := if Get(b, "enabled_prompts").Some? then Get(b, "enabled_prompts").value.items else [];
    assert IsPromptsOf(b, names);
    if p.UnlistedPrompts? {
      UnlistedExactly(Prompts(s), names);
    } else if p.EnabledPromptsMiscounted? {
      DifferentCounts(names);
      assert Has(b, "prompts_enabled", Num(Get(b, "prompts_enabled").value.n));
    }
  }

  lemma OverrideFindingIsSo(s: Json, tools: seq<Json>, b: Json, sid: string, p: Problem)
    requires !HasPrompts(s) && CountsAreInts(b) && p in NoOverrideProblems(b, sid)
    ensures IsFoundInBaseline(s, tools, b, sid, p)
  {
    assert Has(b, "prompts_enabled", Num(Get(b, "prompts_enabled").value.n));
    assert Has(b, "prompts_total", Num(Get(b, "prompts_total").value.n));
  }

  /** Every finding about a baseline entry is so, and names what it is about. */
  lemma BaselineFindingIsSo(s: Json, tools: seq<Json>, b: Json, sid: string, p: Problem)
    requires s.Obj? && p in BaselineEntryProblems(s, tools, b, sid)
    ensures IsFoundInBaseline(s, tools, b, sid, p)
  {
    if CountsAreInts(b) {
      if p in EnabledToolsProblems(b, sid) {
        ListFindingIsSo(s, tools, b, sid, p);
      } else if p in WideningProblems(tools, b, sid) {
        WideningFindingIsSo(s, tools, b, sid, p);
      } else if HasPrompts(s) {
        PromptListFindingIsSo(s, tools, b, sid, p);
      } else {
        OverrideFindingIsSo(s, tools, b, sid, p);
      }
    }
  }

  /** And nothing that is so goes unreported, whatever else is found. */
  lemma CatalogueFindingIsMade(files: Files, s: Json, names: Json, sid: string, p: Problem)
    requires IsFoundInCatalogue(files, s, names, sid, p)
    ensures if p.UndecidedTools? then exists q :: q in CatalogueEntryProblems(files, s, names, sid) && q.UndecidedTools?
            else p in CatalogueEntryProblems(files, s, names, sid)
  {
    if p.UndecidedTools? {
      var tools :| Decides(files, s, sid, tools) && tools != []
                   && forall n :: multiset(p.names)[n] == if IsDecidedIn(tools, n) then 0 else multiset(names.items)[n];
      DecidesExactly(files, s, sid);
      var n := p.names[0];
      assert n in multiset(p.names);
      UndecidedCounts(names.items, tools, n);
      assert n in Undecided(names.items, tools);
      var q := UndecidedTools(sid, Undecided(names.items, tools));
      assert q in CatalogueEntryProblems(files, s, names, sid) && q.UndecidedTools?;
    }
  }

  lemma FoundSetsAgree(tools: seq<Json>, names: seq<Json>, found: set<string>)
    requires AreUnlisted(tools, names, found)
    ensures !(NamesOn(tools) <= Texts(names)) && found == NamesOn(tools) - Texts(names)
  {
    TextsExactly(names);
    forall name ensures name in NamesOn(tools) <==>
        exists i :: 0 <= i < |tools| && Has(tools[i], "enabled", Bool(true)) && Has(tools[i], "name", Str(name)) {
      if i :| 0 <= i < |tools| && Has(tools[i], "enabled", Bool(true)) && Has(tools[i], "name", Str(name)) {
        assert IsOn(tools[i]) && Get(tools[i], "name") == Some(Str(name));
      }
      if name in NamesOn(tools) {
        var i :| 0 <= i < |tools| && IsOn(tools[i]) && Get(tools[i], "name") == Some(Str(name));
        assert Has(tools[i], "enabled", Bool(true)) && Has(tools[i], "name", Str(name));
      }
    }
    var name :| name in found;
    assert found == NamesOn(tools) - Texts(names);
  }

  lemma ToolFindingIsMade(s: Json, tools: seq<Json>, b: Json, sid: string, p: Problem)
    requires IsFoundInBaseline(s, tools, b, sid, p) && CountsAreInts(b)
    requires p.MalformedEnabledTools? || p.RepeatedEnabledTools? || p.EnabledToolsMiscounted?
    ensures p in EnabledToolsProblems(b, sid)
  {
    if p.EnabledToolsMiscounted? {
      var names, n :| IsNamesOf(b, "enabled_tools", names) && Has(b, "tools_enabled", Num(n)) && |Different(names)| != n;
      DifferentCounts(names);
    } else if p.MalformedEnabledTools? && Get(b, "enabled_tools").Some? {
      assert Has(b, "enabled_tools", Get(b, "enabled_tools").value);
    }
  }

  lemma WideningFindingIsMade(s: Json, tools: seq<Json>, b: Json, sid: string, p: Problem)
    requires IsFoundInBaseline(s, tools, b, sid, p) && CountsAreInts(b) && (p.UnlistedTools? || p.WidensTools?)
    ensures p in WideningProblems(tools, b, sid)
  {
    if p.UnlistedTools? {
      var names :| IsNamesOf(b, "enabled_tools", names) && AreUnlisted(tools, names, p.tools);
      FoundSetsAgree(tools, names, p.tools);
    } else {
      CountOnExactly(tools);
    }
  }

  lemma PromptFindingIsMade(s: Json, tools: seq<Json>, b: Json, sid: string, p: Problem)
    requires s.Obj? && IsFoundInBaseline(s, tools, b, sid, p) && CountsAreInts(b) && HasPrompts(s)
    requires p.MalformedEnabledPrompts? || p.RepeatedEnabledPrompts? || p.EnabledPromptsMiscounted?
             || p.UnlistedPrompts? || p.WidensPrompts?
    ensures p in PromptListProblems(Prompts(s), b, sid)
  {
    if p.UnlistedPrompts? {
      var names :| IsPromptsOf(b, names) && AreUnlisted(Prompts(s), names, p.prompts);
      FoundSetsAgree(Prompts(s), names, p.prompts);
    } else if p.EnabledPromptsMiscounted? {
      var names, n :| IsPromptsOf(b, names) && Has(b, "prompts_enabled", Num(n)) && |Different(names)| != n;
      DifferentCounts(names);
    } else if p.WidensPrompts? {
      CountOnExactly(Prompts(s));
    }
  }

  /** A finding of a baseline entry is made exactly when it is so; with no list of prompts all of them are shown. */
  lemma BaselineFindingsExactly(s: Json, tools: seq<Json>, b: Json, sid: string, p: Problem)
    requires s.Obj? && (HasPrompts(s) || "updated_prompts" !in s.fields || s.fields["updated_prompts"] == Null)
    requires p.NotIntegers? || CountsAreInts(b)
    ensures p in BaselineEntryProblems(s, tools, b, sid) <==> IsFoundInBaseline(s, tools, b, sid, p)
  {
    if p in BaselineEntryProblems(s, tools, b, sid) {
      BaselineFindingIsSo(s, tools, b, sid, p);
    }
    if IsFoundInBaseline(s, tools, b, sid, p) {
      BaselineFindingIsMade(s, tools, b, sid, p);
    }
  }

  lemma BaselineFindingIsMade(s: Json, tools: seq<Json>, b: Json, sid: string, p: Problem)
    requires s.Obj? && (HasPrompts(s) || "updated_prompts" !in s.fields || s.fields["updated_prompts"] == Null)
    requires (p.NotIntegers? || CountsAreInts(b)) && IsFoundInBaseline(s, tools, b, sid, p)
    ensures p in BaselineEntryProblems(s, tools, b, sid)
  {
    match p
    case NotIntegers(_) =>
      if CountsAreInts(b) {
        assert HasCounts(b, Get(b, "tools_total").value.n, Get(b, "tools_enabled").value.n,
                         Get(b, "prompts_total").value.n, Get(b, "prompts_enabled").value.n);
      }
    case MalformedEnabledTools(_) => ToolFindingIsMade(s, tools, b, sid, p);
    case RepeatedEnabledTools(_) => ToolFindingIsMade(s, tools, b, sid, p);
    case EnabledToolsMiscounted(_) => ToolFindingIsMade(s, tools, b, sid, p);
    case UnlistedTools(_, _) => WideningFindingIsMade(s, tools, b, sid, p);
    case WidensTools(_, _) => WideningFindingIsMade(s, tools, b, sid, p);
    case WidensPrompts(_, _) =>
      if HasPrompts(s) {
        PromptFindingIsMade(s, tools, b, sid, p);
      }
    case _ => PromptFindingIsMade(s, tools, b, sid, p);
  }
}
