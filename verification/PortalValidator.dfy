/**
 The two checks of scripts/validate-portal-allowlists.py that a landed catalogue must
 keep passing, and what landing does to their verdicts.
 */
module PortalValidator {
  import opened Wrappers
  import opened Seqs
  import opened JsonDocs
  import opened PortalDecision

  // allowlists/<id>.json by id, and mapping.json's servers.
  type Files = map<string, Json>
  type Servers = map<string, Json>

  datatype Problem =
    | NoServersObject(file: string)
    | NotInCatalogue(sid: string)
    | NotMapped(sid: string)
    | MalformedCatalogue(sid: string)
    | RepeatedInCatalogue(sid: string)
    | UndecidedTools(sid: string, names: seq<Json>)
    | NoBaseline(sid: string)
    | NotIntegers(sid: string)
    | MalformedEnabledTools(sid: string)
    | RepeatedEnabledTools(sid: string)
    | EnabledToolsMiscounted(sid: string)
    | UnlistedTools(sid: string, tools: set<string>)
    | WidensTools(sid: string, enabled: int)
    | MalformedEnabledPrompts(sid: string)
    | RepeatedEnabledPrompts(sid: string)
    | EnabledPromptsMiscounted(sid: string)
    | UnlistedPrompts(sid: string, prompts: set<string>)
    | WidensPrompts(sid: string, enabled: int)

  // ---------------------------------------------------------------- what both checks read

  predicate IsVendored(s: Json) {
    Get(s, "vendored") == Some(Bool(true))
  }

  /** The tool list of a server: its vendored file's, or the literal one in mapping.json. */
  function ToolsOf(files: Files, s: Json, sid: string): Option<seq<Json>> {
    var tools := if IsVendored(s) then (if sid in files then Get(files[sid], "tools") else None)
                 else Get(s, "updated_tools");
    match tools
    case Some(Arr(items)) => Some(items)
    case _ => None
  }

  predicate NonEmptyStrings(j: Json) {
    j.Arr? && forall i :: 0 <= i < |j.items| ==> j.items[i].Str? && j.items[i].s != ""
  }

  function ServersOf(doc: Json): Option<map<string, Json>> {
    match Get(doc, "servers")
    case Some(Obj(fields)) => Some(fields)
    case _ => None
  }

  // ---------------------------------------------------------------- check_catalogue

  predicate DecidedIn(tools: seq<Json>, name: Json) {
    exists i :: 0 <= i < |tools| && Get(tools[i], "name") == Some(name)
  }

  function Undecided(names: seq<Json>, tools: seq<Json>): (r: seq<Json>)
    ensures forall n :: n in r <==> n in names && !DecidedIn(tools, n)
  {
    if names == [] then []
    else (if DecidedIn(tools, names[0]) then [] else [names[0]]) + Undecided(names[1..], tools)
  }

  /** The findings about a server that both documents name. */
  function CatalogueEntryProblems(files: Files, s: Json, names: Json, sid: string): seq<Problem> {
    if !NonEmptyStrings(names) || names.items == [] then [MalformedCatalogue(sid)]
    else
      (if Distinct(names.items) then [] else [RepeatedInCatalogue(sid)])
      + (if !s.Obj? then []
         else match ToolsOf(files, s, sid)
           case None => []
           case Some(tools) =>
             if tools == [] || Undecided(names.items, tools) == [] then []
             else [UndecidedTools(sid, Undecided(names.items, tools))])
  }

  function CatalogueProblems(files: Files, servers: Servers, entries: map<string, Json>, sid: string): seq<Problem> {
    if sid !in entries then (if sid in servers then [NotInCatalogue(sid)] else [])
    else if sid !in servers then [NotMapped(sid)]
    else CatalogueEntryProblems(files, servers[sid], entries[sid], sid)
  }

  /** Everything check_catalogue reports. */
  ghost predicate IsCatalogueProblem(files: Files, servers: Servers, catalogue: Json, p: Problem) {
    match ServersOf(catalogue)
    case None => p == NoServersObject("catalogue.json")
    case Some(entries) => exists sid :: p in CatalogueProblems(files, servers, entries, sid)
  }

  ghost predicate CataloguePasses(files: Files, servers: Servers, catalogue: Json) {
    forall p :: !IsCatalogueProblem(files, servers, catalogue, p)
  }

  // ---------------------------------------------------------------- check_baseline

  predicate IsInt(entry: Json, key: string) {
    Get(entry, key).Some? && Get(entry, key).value.Num?
  }

  predicate CountsAreInts(b: Json) {
    IsInt(b, "tools_total") && IsInt(b, "tools_enabled") && IsInt(b, "prompts_total") && IsInt(b, "prompts_enabled")
  }

  predicate IsOn(t: Json) {
    Get(t, "enabled") == Some(Bool(true))
  }

  /** How many entries are enabled, counting repeats. */
  function CountOn(tools: seq<Json>): nat {
    if tools == [] then 0 else CountOn(tools[..|tools| - 1]) + if IsOn(tools[|tools| - 1]) then 1 else 0
  }

  function NamesOn(tools: seq<Json>): set<string> {
    set i | 0 <= i < |tools| && IsOn(tools[i]) && Get(tools[i], "name").Some? && Get(tools[i], "name").value.Str?
      :: Get(tools[i], "name").value.s
  }

  function Texts(items: seq<Json>): set<string> {
    set i | 0 <= i < |items| && items[i].Str? :: items[i].s
  }

  function EnabledToolsProblems(b: Json, sid: string): seq<Problem>
    requires CountsAreInts(b)
  {
    match Get(b, "enabled_tools")
    case None => [MalformedEnabledTools(sid)]
    case Some(names) =>
      if !NonEmptyStrings(names) then [MalformedEnabledTools(sid)]
      else
        (if Distinct(names.items) then [] else [RepeatedEnabledTools(sid)])
        + (if |Texts(names.items)| == Get(b, "tools_enabled").value.n then [] else [EnabledToolsMiscounted(sid)])
  }

  function WideningProblems(tools: seq<Json>, b: Json, sid: string): seq<Problem>
    requires CountsAreInts(b)
  {
    (match Get(b, "enabled_tools")
     case Some(names) =>
       if NonEmptyStrings(names) && !(NamesOn(tools) <= Texts(names.items))
       then [UnlistedTools(sid, NamesOn(tools) - Texts(names.items))] else []
     case None => [])
    + (if CountOn(tools) > Get(b, "tools_enabled").value.n then [WidensTools(sid, CountOn(tools))] else [])
  }

  function PromptListProblems(prompts: seq<Json>, b: Json, sid: string): seq<Problem>
    requires CountsAreInts(b)
  {
    var allowed := if Get(b, "enabled_prompts").Some? then Get(b, "enabled_prompts").value else Arr([]);
    (if !NonEmptyStrings(allowed) then [MalformedEnabledPrompts(sid)]
     else
       (if Distinct(allowed.items) then [] else [RepeatedEnabledPrompts(sid)])
       + (if |Texts(allowed.items)| == Get(b, "prompts_enabled").value.n then [] else [EnabledPromptsMiscounted(sid)])
       + (if NamesOn(prompts) <= Texts(allowed.items) then []
          else [UnlistedPrompts(sid, NamesOn(prompts) - Texts(allowed.items))]))
    + (if CountOn(prompts) > Get(b, "prompts_enabled").value.n then [WidensPrompts(sid, CountOn(prompts))] else [])
  }

  function PromptProblems(s: Json, b: Json, sid: string): seq<Problem>
    requires CountsAreInts(b)
  {
    match Get(s, "updated_prompts")
    case Some(Arr(prompts)) => PromptListProblems(prompts, b, sid)
    case Some(Null) => NoOverrideProblems(b, sid)
    case None => NoOverrideProblems(b, sid)
    case _ => []
  }

  /** No override shows every catalogue prompt. */
  function NoOverrideProblems(b: Json, sid: string): seq<Problem>
    requires CountsAreInts(b)
  {
    var total := Get(b, "prompts_total").value.n;
    if total > Get(b, "prompts_enabled").value.n then [WidensPrompts(sid, total)] else []
  }

  function BaselineEntryProblems(s: Json, tools: seq<Json>, b: Json, sid: string): seq<Problem> {
    if !CountsAreInts(b) then [NotIntegers(sid)]
    else EnabledToolsProblems(b, sid) + WideningProblems(tools, b, sid) + PromptProblems(s, b, sid)
  }

  function BaselineProblems(files: Files, s: Json, entries: map<string, Json>, sid: string): seq<Problem> {
    if !s.Obj? then []
    else match ToolsOf(files, s, sid)
      case None => []
      case Some(tools) =>
        if sid in entries && entries[sid].Obj? then BaselineEntryProblems(s, tools, entries[sid], sid)
        else [NoBaseline(sid)]
  }

  /** Everything check_baseline reports; without a servers object every server lacks its entry. */
  ghost predicate IsBaselineProblem(files: Files, servers: Servers, baseline: Json, p: Problem) {
    var entries := if ServersOf(baseline).Some? then ServersOf(baseline).value else map[];
    || (ServersOf(baseline).None? && p == NoServersObject("baseline.json"))
    || (exists sid :: sid in servers && p in BaselineProblems(files, servers[sid], entries, sid))
  }

  ghost predicate BaselinePasses(files: Files, servers: Servers, baseline: Json) {
    forall p :: !IsBaselineProblem(files, servers, baseline, p)
  }

  // ---------------------------------------------------------------- the checks themselves

  /** The list of errors that every check appends to. */
  class ErrorList {
    var found: seq<Problem>

    constructor ()
      ensures found == []
    {
      found := [];
    }

    method CheckCatalogue(files: Files, servers: Servers, catalogue: Json)
      modifies this
      ensures forall p :: p in found <==> p in old(found) || IsCatalogueProblem(files, servers, catalogue, p)
    {
      var parsed := ServersOf(catalogue);
      if parsed.None? {
        found := found + [NoServersObject("catalogue.json")];
        return;
      }
      var entries := parsed.value;
      ghost var seen: set<string> := {};
      var todo := servers.Keys + entries.Keys;
      while todo != {}
        invariant todo + seen == servers.Keys + entries.Keys
        invariant forall p :: p in found <==>
                    p in old(found) || exists sid :: sid in seen && p in CatalogueProblems(files, servers, entries, sid)
        decreases todo
      {
        var sid :| sid in todo;
        todo, seen := todo - {sid}, seen + {sid};
        found := found + CatalogueProblems(files, servers, entries, sid);
      }
      assert seen == servers.Keys + entries.Keys;
    }

    method CheckBaseline(files: Files, servers: Servers, baseline: Json)
      modifies this
      ensures forall p :: p in found <==> p in old(found) || IsBaselineProblem(files, servers, baseline, p)
    {
      var parsed := ServersOf(baseline);
      var entries := map[];
      if parsed.Some? {
        entries := parsed.value;
      } else {
        found := found + [NoServersObject("baseline.json")];
      }
      ghost var start := found;
      ghost var seen: set<string> := {};
      var todo := servers.Keys;
      while todo != {}
        invariant todo + seen == servers.Keys
        invariant forall p :: p in found <==>
                    p in start || exists sid :: sid in seen && p in BaselineProblems(files, servers[sid], entries, sid)
        decreases todo
      {
        var sid :| sid in todo;
        todo, seen := todo - {sid}, seen + {sid};
        found := found + BaselineProblems(files, servers[sid], entries, sid);
      }
      assert seen == servers.Keys;
    }
  }

  // ---------------------------------------------------------------- landing keeps check_catalogue

  predicate IsNamedSwitch(t: Json) {
    Get(t, "name").Some? && Get(t, "name").value.Str? && Get(t, "enabled").Some?
  }

  lemma {:induction false} LastEnabledReadsNames(tools: seq<Json>, n: string)
    requires LastEnabled(tools).Some?
    ensures n in LastEnabled(tools).value <==> DecidedIn(tools, Str(n))
  {
    if tools != [] {
      LastEnabledReadsNames(tools[..|tools| - 1], n);
      DecidedInFrontOrLast(tools, Str(n));
    }
  }

  lemma {:induction false} LastEnabledReadsSwitches(tools: seq<Json>)
    requires LastEnabled(tools).Some?
    ensures forall i :: 0 <= i < |tools| ==> IsNamedSwitch(tools[i])
  {
    if tools != [] {
      LastEnabledReadsSwitches(tools[..|tools| - 1]);
    }
  }

  lemma LastEnabledReadsEveryEntry(tools: seq<Json>)
    requires LastEnabled(tools).Some?
    ensures forall n :: n in LastEnabled(tools).value <==> DecidedIn(tools, Str(n))
    ensures forall i :: 0 <= i < |tools| ==> IsNamedSwitch(tools[i])
  {
    LastEnabledReadsSwitches(tools);
    forall n ensures n in LastEnabled(tools).value <==> DecidedIn(tools, Str(n)) {
      LastEnabledReadsNames(tools, n);
    }
  }

  lemma DecidedInFrontOrLast(tools: seq<Json>, name: Json)
    requires tools != []
    ensures DecidedIn(tools, name)
       <==> DecidedIn(tools[..|tools| - 1], name) || Get(tools[|tools| - 1], "name") == Some(name)
  {
    var front := tools[..|tools| - 1];
    if DecidedIn(front, name) {
      var i :| 0 <= i < |front| && Get(front[i], "name") == Some(name);
      assert Get(tools[i], "name") == Some(name);
    }
  }

  /** The allowlist decides a name exactly when it has an entry with that name. */
  lemma DecisionsAreEntries(allowlist: Json)
    requires Decisions(allowlist).Some?
    ensures var tools := Get(allowlist, "tools").value;
      tools.Arr? && tools.items != []
      && forall n: Json :: n.Str? ==> (n.s in Decisions(allowlist).value <==> DecidedIn(tools.items, n))
  {
    LastEnabledReadsEveryEntry(Get(allowlist, "tools").value.items);
  }

  predicate AllDecided(live: Json, allowlist: Json)
    requires live.Arr? && Decisions(allowlist).Some?
  {
    forall i :: 0 <= i < |live.items| ==> live.items[i].Str? && live.items[i].s in Decisions(allowlist).value
  }

  /** The landed list itself passes exactly when the branch's allowlist decides all of it. */
  lemma LandedEntryPassesExactly(files: Files, s: Json, live: Json, sid: string)
    requires s.Obj? && IsVendored(s) && sid in files
    requires IsLiveList(live) && Decisions(files[sid]).Some?
    ensures CatalogueEntryProblems(files, s, live, sid) == [] <==> AllDecided(live, files[sid])
  {
    DecisionsAreEntries(files[sid]);
    var tools := Get(files[sid], "tools").value.items;
    assert NonEmptyStrings(live);
    assert ToolsOf(files, s, sid) == Some(tools);
    if AllDecided(live, files[sid]) && Undecided(live.items, tools) != [] {
      assert Undecided(live.items, tools)[0] in Undecided(live.items, tools);
    }
    if Undecided(live.items, tools) == [] {
      forall i | 0 <= i < |live.items| ensures DecidedIn(tools, live.items[i]) {
        assert live.items[i] in live.items;
      }
    }
  }

  lemma SomeMember(problems: seq<Problem>)
    ensures problems != [] ==> exists p :: p in problems
  {
    if problems != [] {
      assert problems[0] in problems;
    }
  }

  ghost predicate NoCatalogueProblem(files: Files, servers: Servers, catalogue: Json, sid: string) {
    ServersOf(catalogue).Some? && CatalogueProblems(files, servers, ServersOf(catalogue).value, sid) == []
  }

  lemma CataloguePassesEverywhere(files: Files, servers: Servers, catalogue: Json)
    ensures CataloguePasses(files, servers, catalogue)
       <==> ServersOf(catalogue).Some? && forall sid :: NoCatalogueProblem(files, servers, catalogue, sid)
  {
    if CataloguePasses(files, servers, catalogue) {
      assert !IsCatalogueProblem(files, servers, catalogue, NoServersObject("catalogue.json"));
      forall sid ensures NoCatalogueProblem(files, servers, catalogue, sid) {
        forall p ensures p !in CatalogueProblems(files, servers, ServersOf(catalogue).value, sid) {
          assert !IsCatalogueProblem(files, servers, catalogue, p);
        }
        SomeMember(CatalogueProblems(files, servers, ServersOf(catalogue).value, sid));
      }
    }
    if ServersOf(catalogue).Some? && forall sid :: NoCatalogueProblem(files, servers, catalogue, sid) {
      forall p ensures !IsCatalogueProblem(files, servers, catalogue, p) {
        forall sid ensures p !in CatalogueProblems(files, servers, ServersOf(catalogue).value, sid) {
          assert NoCatalogueProblem(files, servers, catalogue, sid);
        }
      }
    }
  }

  /** Same verdict for a server whose entry and vendored file both stay. */
  lemma OtherServersKeepTheirVerdict(
    files: Files, after: Files, servers: Servers, before: Json, next: Json, sid: string)
    requires ServersOf(before).Some? && ServersOf(next).Some?
    requires Entry(before, sid) == Entry(next, sid)
    requires sid in files <==> sid in after
    requires sid in files ==> files[sid] == after[sid]
    ensures CatalogueProblems(files, servers, ServersOf(before).value, sid)
         == CatalogueProblems(after, servers, ServersOf(next).value, sid)
  {
    EntryIsTheServers(before, sid);
    EntryIsTheServers(next, sid);
    if sid in ServersOf(before).value && sid in servers {
      SameFileSameProblems(files, after, servers[sid], ServersOf(before).value[sid], sid);
    }
  }

  lemma EntryIsTheServers(doc: Json, sid: string)
    requires ServersOf(doc).Some?
    ensures Entry(doc, sid) == if sid in ServersOf(doc).value then Some(ServersOf(doc).value[sid]) else None
  {
  }

  lemma SameFileSameProblems(files: Files, after: Files, s: Json, names: Json, sid: string)
    requires sid in files <==> sid in after
    requires sid in files ==> files[sid] == after[sid]
    ensures CatalogueEntryProblems(files, s, names, sid) == CatalogueEntryProblems(after, s, names, sid)
  {
    assert ToolsOf(files, s, sid) == ToolsOf(after, s, sid);
  }

  /** The branch's documents differ from main's in this server's entries only. */
  predicate SameElsewhere(main: Json, branch: Json, server: string) {
    && Get(main, "servers").Some? && Get(branch, "servers").Some?
    && Get(main, "servers").value.Obj? && Get(branch, "servers").value.Obj?
    && var (m, b) := (Get(main, "servers").value.fields, Get(branch, "servers").value.fields);
       && server in m && server in b
       && m - {server} == b - {server}
  }

  lemma SameElsewhereReads(main: Json, branch: Json, server: string, other: string)
    requires SameElsewhere(main, branch, server) && other != server
    ensures Entry(main, other) == Entry(branch, other)
  {
    var (m, b) := (Get(main, "servers").value.fields, Get(branch, "servers").value.fields);
    assert other in m <==> other in m - {server};
    assert other in b <==> other in b - {server};
    if other in m { assert (m - {server})[other] == m[other]; }
    if other in b { assert (b - {server})[other] == b[other]; }
  }

  lemma ChangedCatalogueProblems(
    files: Files, after: Files, servers: Servers, server: string, live: Json, docs: Inputs, today: string, sid: string)
    requires Decide(server, live, docs, today).Change?
    requires CataloguePasses(files, servers, docs.mainCatalogue) && SameElsewhere(docs.mainCatalogue, docs.catalogue, server)
    requires server in servers && servers[server].Obj? && IsVendored(servers[server])
    requires after == files[server := docs.allowlist]
    ensures var c := Decide(server, live, docs, today).catalogue;
      NoCatalogueProblem(after, servers, c, sid) <==> (sid == server ==> AllDecided(live, docs.allowlist))
  {
    var c := Decide(server, live, docs, today).catalogue;
    ChangeWritesOnlyItsEntries(server, live, docs, today);
    if sid == server {
      OwnEntryPassesExactly(after, servers, server, live, c);
    } else {
      OtherEntriesPass(files, docs.allowlist, servers, server, docs.mainCatalogue, docs.catalogue, c, sid);
    }
  }

  lemma OwnEntryPassesExactly(after: Files, servers: Servers, server: string, live: Json, c: Json)
    requires server in servers && servers[server].Obj? && IsVendored(servers[server]) && server in after
    requires IsLiveList(live) && Decisions(after[server]).Some? && Entry(c, server) == Some(live)
    ensures NoCatalogueProblem(after, servers, c, server) <==> AllDecided(live, after[server])
  {
    LandedEntryPassesExactly(after, servers[server], live, server);
  }

  lemma OtherEntriesPass(
    files: Files, allowlist: Json, servers: Servers, server: string, main: Json, before: Json, c: Json, sid: string)
    requires CataloguePasses(files, servers, main) && SameElsewhere(main, before, server) && sid != server
    requires ServersOf(c).Some? && Entry(c, sid) == Entry(before, sid)
    ensures NoCatalogueProblem(files[server := allowlist], servers, c, sid)
  {
    CataloguePassesEverywhere(files, servers, main);
    SameElsewhereReads(main, before, server, sid);
    assert NoCatalogueProblem(files, servers, main, sid);
    OtherServersKeepTheirVerdict(files, files[server := allowlist], servers, main, c, sid);
  }

  /**
   Landing on a branch whose other entries are main's, with whatever allowlist that branch
   carries: the catalogue check passes exactly when the allowlist decides every live tool.
   */
  lemma LandedCataloguePassesExactly(
    files: Files, servers: Servers, server: string, live: Json, docs: Inputs, today: string)
    requires Decide(server, live, docs, today).Change?
    requires CataloguePasses(files, servers, docs.mainCatalogue) && SameElsewhere(docs.mainCatalogue, docs.catalogue, server)
    requires server in servers && servers[server].Obj? && IsVendored(servers[server])
    ensures CataloguePasses(files[server := docs.allowlist], servers, Decide(server, live, docs, today).catalogue)
       <==> AllDecided(live, docs.allowlist)
  {
    var after := files[server := docs.allowlist];
    var c := Decide(server, live, docs, today).catalogue;
    ChangeWritesOnlyItsEntries(server, live, docs, today);
    forall sid
      ensures NoCatalogueProblem(after, servers, c, sid) <==> (sid == server ==> AllDecided(live, docs.allowlist))
    {
      ChangedCatalogueProblems(files, after, servers, server, live, docs, today, sid);
    }
    CataloguePassesEverywhere(after, servers, c);
    assert AllDecided(live, docs.allowlist) <==> NoCatalogueProblem(after, servers, c, server);
  }

  lemma LiveIsDecided(live: seq<Json>, merged: seq<Json>, tools: seq<Json>, decisions: map<string, bool>)
    requires AllToolNames(live) && Undecided(merged, tools) == []
    requires NotDecided(Missing(live, merged), decisions) == []
    requires forall n: Json :: n.Str? ==> (n.s in decisions <==> DecidedIn(tools, n))
    ensures forall i :: 0 <= i < |live| ==> live[i].Str? && live[i].s in decisions
  {
    forall i | 0 <= i < |live| ensures live[i].Str? && live[i].s in decisions {
      var n := live[i];
      assert IsToolName(n) && n in live;
      if n in merged {
        assert n !in Undecided(merged, tools);
      } else {
        assert n in Missing(live, merged) && n !in NotDecided(Missing(live, merged), decisions);
      }
    }
  }

  /** An entry without findings, read with a decided allowlist, has nothing undecided. */
  lemma PassingEntryIsDecided(files: Files, s: Json, names: Json, sid: string)
    requires s.Obj? && IsVendored(s) && sid in files && Decisions(files[sid]).Some?
    requires names.Arr? && CatalogueEntryProblems(files, s, names, sid) == []
    ensures Undecided(names.items, Get(files[sid], "tools").value.items) == []
  {
    DecisionsAreEntries(files[sid]);
    assert ToolsOf(files, s, sid) == Some(Get(files[sid], "tools").value.items);
  }

  lemma MainEntryIsDecided(files: Files, servers: Servers, catalogue: Json, server: string)
    requires CataloguePasses(files, servers, catalogue) && IsCatalogueEntry(Entry(catalogue, server))
    requires server in servers && servers[server].Obj? && IsVendored(servers[server])
    requires server in files && Decisions(files[server]).Some?
    ensures Undecided(Entry(catalogue, server).value.items, Get(files[server], "tools").value.items) == []
  {
    CataloguePassesEverywhere(files, servers, catalogue);
    assert NoCatalogueProblem(files, servers, catalogue, server);
    PassingEntryIsDecided(files, servers[server], Entry(catalogue, server).value, server);
  }

  lemma ChangeDecidesEveryAddition(server: string, live: Json, docs: Inputs, today: string)
    requires Decide(server, live, docs, today).Change?
    ensures Decisions(docs.allowlist).Some? && live.Arr? && AllToolNames(live.items)
    ensures IsCatalogueEntry(Entry(docs.mainCatalogue, server))
    ensures NotDecided(Missing(live.items, Entry(docs.mainCatalogue, server).value.items),
                       Decisions(docs.allowlist).value) == []
  {
  }

  /** With main's own allowlist every live tool is decided, so landing keeps the catalogue check. */
  lemma LandedCataloguePasses(
    files: Files, servers: Servers, server: string, live: Json, docs: Inputs, today: string)
    requires Decide(server, live, docs, today).Change?
    requires CataloguePasses(files, servers, docs.mainCatalogue) && SameElsewhere(docs.mainCatalogue, docs.catalogue, server)
    requires server in servers && servers[server].Obj? && IsVendored(servers[server])
    requires server in files && files[server] == docs.allowlist
    ensures CataloguePasses(files, servers, Decide(server, live, docs, today).catalogue)
  {
    ChangeDecidesEveryAddition(server, live, docs, today);
    MainEntryIsDecided(files, servers, docs.mainCatalogue, server);
    DecisionsAreEntries(docs.allowlist);
    LiveIsDecided(live.items, Entry(docs.mainCatalogue, server).value.items,
                  Get(docs.allowlist, "tools").value.items, Decisions(docs.allowlist).value);
    LandedCataloguePassesExactly(files, servers, server, live, docs, today);
    assert files[server := docs.allowlist] == files;
  }

  // ---------------------------------------------------------------- landing keeps check_baseline

  predicate UniqueNames(tools: seq<Json>) {
    forall i, j :: 0 <= i < j < |tools| ==> Get(tools[i], "name") != Get(tools[j], "name")
  }

  function OnIn(last: map<string, Json>): set<string> {
    set n | n in last && last[n] == Bool(true)
  }

  lemma NamesOnFromTheBack(tools: seq<Json>, n: string)
    requires tools != [] && Get(tools[|tools| - 1], "name") == Some(Str(n))
    ensures NamesOn(tools) == NamesOn(tools[..|tools| - 1]) + (if IsOn(tools[|tools| - 1]) then {n} else {})
  {
    var front := tools[..|tools| - 1];
    forall m | m in NamesOn(front) ensures m in NamesOn(tools) {
      var i :| 0 <= i < |front| && IsOn(front[i]) && Get(front[i], "name") == Some(Str(m));
      assert tools[i] == front[i];
    }
    forall m | m in NamesOn(tools) ensures m in NamesOn(front) || (IsOn(tools[|tools| - 1]) && m == n) {
      var i :| 0 <= i < |tools| && IsOn(tools[i]) && Get(tools[i], "name") == Some(Str(m));
      if i < |front| { assert front[i] == tools[i]; }
    }
  }

  lemma NewNameIsNotYetThere(tools: seq<Json>)
    requires tools != [] && UniqueNames(tools) && LastEnabled(tools).Some?
    ensures var n := Get(tools[|tools| - 1], "name");
      n.Some? && n.value.Str? && LastEnabled(tools[..|tools| - 1]).Some?
      && n.value.s !in LastEnabled(tools[..|tools| - 1]).value
  {
    var front := tools[..|tools| - 1];
    LastEnabledReadsEveryEntry(tools);
    LastEnabledReadsEveryEntry(front);
  }

  /** Each tool once: the decisions of the allowlist and the counts of the validator are the same. */
  lemma {:induction false} UniqueNamesCountAlike(tools: seq<Json>)
    requires UniqueNames(tools) && LastEnabled(tools).Some?
    ensures NamesOn(tools) == OnIn(LastEnabled(tools).value)
    ensures CountOn(tools) == |OnIn(LastEnabled(tools).value)|
  {
    if tools != [] {
      var front := tools[..|tools| - 1];
      NewNameIsNotYetThere(tools);
      var n := Get(tools[|tools| - 1], "name").value.s;
      UniqueNamesCountAlike(front);
      NamesOnFromTheBack(tools, n);
      var (before, on) := (OnIn(LastEnabled(front).value), OnIn(LastEnabled(tools).value));
      assert n !in before;
      assert on == before + (if IsOn(tools[|tools| - 1]) then {n} else {});
    }
  }

  lemma EnabledToolsCountAlike(allowlist: Json)
    requires Decisions(allowlist).Some? && UniqueNames(Get(allowlist, "tools").value.items)
    ensures var tools := Get(allowlist, "tools").value.items;
      NamesOn(tools) == EnabledTools(Decisions(allowlist).value)
      && CountOn(tools) == |EnabledTools(Decisions(allowlist).value)|
  {
    var tools := Get(allowlist, "tools").value.items;
    UniqueNamesCountAlike(tools);
    assert EnabledTools(Decisions(allowlist).value) == OnIn(LastEnabled(tools).value);
  }

  /** The fields that check_baseline reads, but for tools_total. */
  predicate ReadAlike(b: Json, after: Json) {
    && Get(b, "tools_enabled") == Get(after, "tools_enabled") && Get(b, "enabled_tools") == Get(after, "enabled_tools")
    && Get(b, "prompts_total") == Get(after, "prompts_total") && Get(b, "prompts_enabled") == Get(after, "prompts_enabled")
    && Get(b, "enabled_prompts") == Get(after, "enabled_prompts")
  }

  lemma DecidedKeyStays(b: Json, after: Json, key: string)
    requires b.Obj? && after.Obj? && DecisionFields(b) == DecisionFields(after) && key != "tools_total" && key != "recorded"
    ensures Get(b, key) == Get(after, key)
  {
    assert key in b.fields <==> key in DecisionFields(b);
    assert key in after.fields <==> key in DecisionFields(after);
    assert key in b.fields ==> DecisionFields(b)[key] == b.fields[key];
    assert key in after.fields ==> DecisionFields(after)[key] == after.fields[key];
  }

  lemma DecisionFieldsReadAlike(b: Json, after: Json)
    requires b.Obj? && after.Obj? && DecisionFields(b) == DecisionFields(after)
    ensures ReadAlike(b, after)
  {
    DecidedKeyStays(b, after, "tools_enabled");
    DecidedKeyStays(b, after, "enabled_tools");
    DecidedKeyStays(b, after, "prompts_total");
    DecidedKeyStays(b, after, "prompts_enabled");
    DecidedKeyStays(b, after, "enabled_prompts");
  }

  lemma SamePromptProblems(s: Json, b: Json, after: Json, sid: string)
    requires CountsAreInts(b) && CountsAreInts(after) && ReadAlike(b, after)
    ensures PromptProblems(s, b, sid) == PromptProblems(s, after, sid)
  {
    match Get(s, "updated_prompts")
    case Some(Arr(prompts)) => SamePromptListProblems(prompts, b, after, sid);
    case _ =>
      assert NoOverrideProblems(b, sid) == NoOverrideProblems(after, sid);
  }

  lemma SamePromptListProblems(prompts: seq<Json>, b: Json, after: Json, sid: string)
    requires CountsAreInts(b) && CountsAreInts(after) && ReadAlike(b, after)
    ensures PromptListProblems(prompts, b, sid) == PromptListProblems(prompts, after, sid)
  {
  }

  lemma SameToolProblems(tools: seq<Json>, b: Json, after: Json, sid: string)
    requires CountsAreInts(b) && CountsAreInts(after) && ReadAlike(b, after)
    ensures EnabledToolsProblems(b, sid) == EnabledToolsProblems(after, sid)
    ensures WideningProblems(tools, b, sid) == WideningProblems(tools, after, sid)
  {
  }

  /** The checks read tools_total as a number and nothing else outside the decision fields. */
  lemma RecountKeepsVerdict(s: Json, tools: seq<Json>, b: Json, after: Json, sid: string)
    requires b.Obj? && after.Obj? && DecisionFields(b) == DecisionFields(after)
    requires IsInt(b, "tools_total") && IsInt(after, "tools_total")
    ensures BaselineEntryProblems(s, tools, b, sid) == BaselineEntryProblems(s, tools, after, sid)
  {
    DecisionFieldsReadAlike(b, after);
    if CountsAreInts(b) {
      SamePromptProblems(s, b, after, sid);
      SameToolProblems(tools, b, after, sid);
    }
  }

  ghost predicate NoBaselineProblem(files: Files, servers: Servers, baseline: Json, sid: string) {
    ServersOf(baseline).Some?
    && (sid in servers ==> BaselineProblems(files, servers[sid], ServersOf(baseline).value, sid) == [])
  }

  lemma BaselinePassesEverywhere(files: Files, servers: Servers, baseline: Json)
    ensures BaselinePasses(files, servers, baseline)
       <==> ServersOf(baseline).Some? && forall sid :: NoBaselineProblem(files, servers, baseline, sid)
  {
    if BaselinePasses(files, servers, baseline) {
      assert !IsBaselineProblem(files, servers, baseline, NoServersObject("baseline.json"));
      forall sid ensures NoBaselineProblem(files, servers, baseline, sid) {
        if sid in servers {
          forall p ensures p !in BaselineProblems(files, servers[sid], ServersOf(baseline).value, sid) {
            assert !IsBaselineProblem(files, servers, baseline, p);
          }
          SomeMember(BaselineProblems(files, servers[sid], ServersOf(baseline).value, sid));
        }
      }
    }
    if ServersOf(baseline).Some? && forall sid :: NoBaselineProblem(files, servers, baseline, sid) {
      forall p ensures !IsBaselineProblem(files, servers, baseline, p) {
        forall sid | sid in servers
          ensures p !in BaselineProblems(files, servers[sid], ServersOf(baseline).value, sid)
        {
          assert NoBaselineProblem(files, servers, baseline, sid);
        }
      }
    }
  }

  /** The branch's baseline is main's, but for what this script records about the server. */
  predicate RecountOf(reference: Json, baseline: Json, server: string) {
    && SameElsewhere(reference, baseline, server)
    && HasEntry(reference, server) && HasEntry(baseline, server)
    && DecisionFields(Entry(baseline, server).value) == DecisionFields(Entry(reference, server).value)
    && (Get(Entry(baseline, server).value, "tools_total").Some? ==>
          Get(Entry(baseline, server).value, "tools_total").value.Num?)
  }

  /** A baseline whose entry of the server is a recount of main's, with a number for its total. */
  predicate IsRecounted(reference: Json, next: Json, server: string) {
    && HasEntry(reference, server) && HasEntry(next, server)
    && DecisionFields(Entry(next, server).value) == DecisionFields(Entry(reference, server).value)
    && IsInt(Entry(next, server).value, "tools_total")
    && ServersOf(next).Some? && server in ServersOf(next).value
    && ServersOf(next).value[server] == Entry(next, server).value
  }

  lemma RecountedBaseline(reference: Json, baseline: Json, server: string, total: nat, today: string)
    requires RecountOf(reference, baseline, server)
    ensures var next := NewBaseline(baseline, server, total, today);
      IsRecounted(reference, next, server)
      && forall other :: other != server ==> Entry(next, other) == Entry(reference, other)
  {
    NewBaselineOnlyRecounts(baseline, server, total, today);
    var next := NewBaseline(baseline, server, total, today);
    assert PyEq(Get(Entry(next, server).value, "tools_total").value, Num(total));
    forall other | other != server ensures Entry(next, other) == Entry(reference, other) {
      SameElsewhereReads(reference, baseline, server, other);
    }
  }

  lemma LandedEntryIsARecount(server: string, live: Json, docs: Inputs, today: string)
    requires Decide(server, live, docs, today).Change? && RecountOf(docs.reference, docs.baseline, server)
    ensures var next := Decide(server, live, docs, today).baseline;
      IsRecounted(docs.reference, next, server)
      && forall other :: other != server ==> Entry(next, other) == Entry(docs.reference, other)
  {
    ChangeWritesOnlyItsEntries(server, live, docs, today);
    RecountedBaseline(docs.reference, docs.baseline, server, |Decisions(docs.allowlist).value|, today);
  }

  /** A changed tool list that the decision admits widens nothing, when it names each tool once. */
  lemma AdmittedToolsDoNotWiden(server: string, live: Json, docs: Inputs, today: string, b: Json)
    requires Decide(server, live, docs, today).Change?
    requires UniqueNames(Get(docs.allowlist, "tools").value.items)
    requires CountsAreInts(b) && EnabledToolsProblems(b, server) == []
    requires Entry(docs.reference, server) == Some(b)
    ensures WideningProblems(Get(docs.allowlist, "tools").value.items, b, server) == []
  {
    ChangeKeepsExposure(server, live, docs, today);
    EnabledToolsCountAlike(docs.allowlist);
    var names := Get(b, "enabled_tools").value;
    assert StringsOf(names).value == Texts(names.items);
    WideningExactly(Get(docs.allowlist, "tools").value.items, b, server);
  }

  /** The tool list of an allowlist, repeated names and all. */
  function ToolList(allowlist: Json): seq<Json> {
    match Get(allowlist, "tools")
    case Some(Arr(items)) => items
    case _ => []
  }

  /** What check_baseline compares a tool list with: how many are enabled, entry by entry, and which. */
  predicate WidensNothing(tools: seq<Json>, b: Json) {
    && IsInt(b, "tools_enabled") && CountOn(tools) <= Get(b, "tools_enabled").value.n
    && Get(b, "enabled_tools").Some? && Get(b, "enabled_tools").value.Arr?
    && NamesOn(tools) <= Texts(Get(b, "enabled_tools").value.items)
  }

  lemma WideningExactly(tools: seq<Json>, b: Json, sid: string)
    requires CountsAreInts(b) && EnabledToolsProblems(b, sid) == []
    ensures WideningProblems(tools, b, sid) == [] <==> WidensNothing(tools, b)
  {
  }

  /** A passing main has nothing against the server's entry, with main's own tool list. */
  lemma PassingEntryReads(files: Files, servers: Servers, reference: Json, server: string)
    requires BaselinePasses(files, servers, reference) && HasEntry(reference, server)
    requires server in servers && servers[server].Obj? && ToolsOf(files, servers[server], server).Some?
    ensures var (s, b) := (servers[server], Entry(reference, server).value);
      && CountsAreInts(b) && EnabledToolsProblems(b, server) == [] && PromptProblems(s, b, server) == []
      && WidensNothing(ToolsOf(files, s, server).value, b)
  {
    BaselinePassesEverywhere(files, servers, reference);
    assert NoBaselineProblem(files, servers, reference, server);
    EntryIsTheServers(reference, server);
    var (s, b) := (servers[server], Entry(reference, server).value);
    assert BaselineEntryProblems(s, ToolsOf(files, s, server).value, b, server) == [];
    WideningExactly(ToolsOf(files, s, server).value, b, server);
  }

  lemma RecountedEntryExactly(files: Files, servers: Servers, server: string, reference: Json, next: Json, allowlist: Json)
    requires BaselinePasses(files, servers, reference) && IsRecounted(reference, next, server)
    requires server in servers && servers[server].Obj? && IsVendored(servers[server])
    requires ToolsOf(files, servers[server], server).Some?
    requires Get(allowlist, "tools").Some? && Get(allowlist, "tools").value.Arr?
    ensures NoBaselineProblem(files[server := allowlist], servers, next, server)
       <==> WidensNothing(ToolList(allowlist), Entry(reference, server).value)
  {
    var (s, tools) := (servers[server], ToolList(allowlist));
    var (b, after) := (Entry(reference, server).value, Entry(next, server).value);
    PassingEntryReads(files, servers, reference, server);
    RecountKeepsVerdict(s, tools, b, after, server);
    WideningExactly(tools, b, server);
    assert ToolsOf(files[server := allowlist], s, server) == Some(tools);
    assert BaselineEntryProblems(s, tools, after, server) == WideningProblems(tools, b, server);
  }

  lemma OtherServersKeepTheirBaseline(
    files: Files, after: Files, servers: Servers, before: Json, next: Json, sid: string)
    requires ServersOf(before).Some? && ServersOf(next).Some? && Entry(before, sid) == Entry(next, sid)
    requires sid in files <==> sid in after
    requires sid in files ==> files[sid] == after[sid]
    ensures NoBaselineProblem(files, servers, before, sid) <==> NoBaselineProblem(after, servers, next, sid)
  {
    if sid in servers {
      assert ToolsOf(after, servers[sid], sid) == ToolsOf(files, servers[sid], sid);
      assert BaselineProblems(files, servers[sid], ServersOf(before).value, sid)
          == BaselineProblems(after, servers[sid], ServersOf(next).value, sid);
    }
  }

  /**
   Landing on a branch whose other entries are main's, with whatever allowlist that branch
   carries: the baseline check passes exactly when the allowlist's entries, repeats counted,
   enable no more tools and no other tools than main's baseline allows.
   */
  lemma LandedBaselinePassesExactly(
    files: Files, servers: Servers, server: string, live: Json, docs: Inputs, today: string)
    requires Decide(server, live, docs, today).Change? && RecountOf(docs.reference, docs.baseline, server)
    requires BaselinePasses(files, servers, docs.reference)
    requires server in servers && servers[server].Obj? && IsVendored(servers[server])
    requires ToolsOf(files, servers[server], server).Some?
    ensures BaselinePasses(files[server := docs.allowlist], servers, Decide(server, live, docs, today).baseline)
       <==> WidensNothing(ToolList(docs.allowlist), Entry(docs.reference, server).value)
  {
    var after := files[server := docs.allowlist];
    var next := Decide(server, live, docs, today).baseline;
    LandedEntryIsARecount(server, live, docs, today);
    ChangeReadsTools(server, live, docs, today);
    RecountedEntryExactly(files, servers, server, docs.reference, next, docs.allowlist);
    BaselinePassesEverywhere(files, servers, docs.reference);
    forall sid | sid != server ensures NoBaselineProblem(after, servers, next, sid) {
      assert NoBaselineProblem(files, servers, docs.reference, sid);
      OtherServersKeepTheirBaseline(files, after, servers, docs.reference, next, sid);
    }
    BaselinePassesEverywhere(after, servers, next);
  }

  lemma ChangeReadsTools(server: string, live: Json, docs: Inputs, today: string)
    requires Decide(server, live, docs, today).Change?
    ensures Decisions(docs.allowlist).Some?
    ensures Get(docs.allowlist, "tools").Some? && Get(docs.allowlist, "tools").value.Arr?
  {
    DecisionsAreEntries(docs.allowlist);
  }

  /** Two tool lists that always pass: main's own, and one that names each tool once. */
  predicate ToolsAdmitted(files: Files, server: string, allowlist: Json) {
    (server in files && files[server] == allowlist) || UniqueNames(ToolList(allowlist))
  }

  /**
   So landing keeps the baseline check: with main's own allowlist always, and with a bumped
   allowlist whenever it names each tool once.
   */
  lemma LandedBaselinePasses(
    files: Files, servers: Servers, server: string, live: Json, docs: Inputs, today: string)
    requires Decide(server, live, docs, today).Change? && RecountOf(docs.reference, docs.baseline, server)
    requires BaselinePasses(files, servers, docs.reference)
    requires server in servers && servers[server].Obj? && IsVendored(servers[server])
    requires ToolsOf(files, servers[server], server).Some?
    requires ToolsAdmitted(files, server, docs.allowlist)
    ensures BaselinePasses(files[server := docs.allowlist], servers, Decide(server, live, docs, today).baseline)
  {
    var b := Entry(docs.reference, server).value;
    PassingEntryReads(files, servers, docs.reference, server);
    if !(server in files && files[server] == docs.allowlist) {
      ChangeReadsTools(server, live, docs, today);
      AdmittedToolsDoNotWiden(server, live, docs, today, b);
      WideningExactly(ToolList(docs.allowlist), b, server);
    }
    LandedBaselinePassesExactly(files, servers, server, live, docs, today);
  }

  // ---------------------------------------------------------------- where a bump PR differs

  function OneServer(server: string, value: Json): Json {
    Obj(map["servers" := Obj(map[server := value])])
  }

  function Tool(name: string, enabled: bool): Json {
    Obj(map["name" := Str(name), "enabled" := Bool(enabled)])
  }

  function Allowlist(tools: seq<Json>): Json {
    Obj(map["tools" := Arr(tools)])
  }

  const VENDORED := Obj(map["vendored" := Bool(true)])

  /** main's baseline entry: one tool allowed, and a total that nobody has brought up to date. */
  function OneToolEntry(live: string): Json {
    Obj(map["enabled_tools" := Arr([Str(live)]), "tools_enabled" := Num(1), "tools_total" := Num(0),
            "prompts_total" := Num(0), "prompts_enabled" := Num(0)])
  }

  /** One tool `live` in the portal and in main's catalogue, allowed once. */
  function OneLiveTool(server: string, live: string, allowlist: Json): Inputs {
    var (catalogue, baseline) := (OneServer(server, Arr([Str(live)])), OneServer(server, OneToolEntry(live)));
    Inputs(catalogue, baseline, allowlist, baseline, catalogue)
  }

  /** main's allowlist file, with that one tool decided on. */
  function MainFiles(server: string, live: string): Files {
    map[server := Allowlist([Tool(live, true)])]
  }

  lemma OneEntryReads(server: string, live: string)
    ensures Entry(OneServer(server, OneToolEntry(live)), server) == Some(OneToolEntry(live))
    ensures Entry(OneServer(server, Arr([Str(live)])), server) == Some(Arr([Str(live)]))
  {
  }

  lemma OneString(live: string)
    ensures StringsOf(Arr([Str(live)])) == Some({live}) && Texts([Str(live)]) == {live}
  {
    var items := [Str(live)];
    assert items[0] == Str(live);
    assert (set i | 0 <= i < |items| && items[i].Str? :: items[i].s) == {live};
  }

  lemma ToolReads(name: string, on: bool)
    ensures Get(Tool(name, on), "name") == Some(Str(name)) && Get(Tool(name, on), "enabled") == Some(Bool(on))
  {
    assert "name" != "enabled";
  }

  /** The last entry of a tool list decides its name, and is counted when it is on. */
  lemma LastToolReads(front: seq<Json>, name: string, on: bool)
    ensures var tools := front + [Tool(name, on)];
      && tools[..|tools| - 1] == front
      && LastEnabled(tools) == (if LastEnabled(front).Some? then Some(LastEnabled(front).value[name := Bool(on)]) else None)
      && CountOn(tools) == CountOn(front) + (if on then 1 else 0)
      && NamesOn(tools) == NamesOn(front) + (if on then {name} else {})
  {
    AfterFirst(front, [Tool(name, on)]);
    ToolReads(name, on);
    NamesOnFromTheBack(front + [Tool(name, on)], name);
  }

  /** An allowlist of switches decides what their last values are. */
  lemma SwitchesDecide(tools: seq<Json>, last: map<string, Json>, decisions: map<string, bool>)
    requires tools != [] && LastEnabled(tools) == Some(last) && decisions.Keys == last.Keys
    requires forall n :: n in last ==> IsToolName(Str(n)) && last[n] == Bool(decisions[n])
    ensures Decisions(Allowlist(tools)) == Some(decisions)
    ensures ToolList(Allowlist(tools)) == tools
  {
    assert (map n | n in last :: last[n].b) == decisions;
  }

  lemma OneToolLast(name: string, on: bool)
    ensures LastEnabled([Tool(name, on)]) == Some(map[name := Bool(on)])
    ensures CountOn([Tool(name, on)]) == (if on then 1 else 0)
    ensures NamesOn([Tool(name, on)]) == if on then {name} else {}
  {
    LastToolReads([], name, on);
    assert [] + [Tool(name, on)] == [Tool(name, on)];
  }

  lemma OneToolDecides(name: string, on: bool)
    requires IsToolName(Str(name))
    ensures Decisions(Allowlist([Tool(name, on)])) == Some(map[name := on])
    ensures ToolList(Allowlist([Tool(name, on)])) == [Tool(name, on)]
    ensures CountOn([Tool(name, on)]) == (if on then 1 else 0)
    ensures NamesOn([Tool(name, on)]) == if on then {name} else {}
  {
    OneToolLast(name, on);
    SwitchesDecide([Tool(name, on)], map[name := Bool(on)], map[name := on]);
  }

  lemma OneLiveToolIsReadable(server: string, live: string, allowlist: Json)
    requires IsToolName(Str(live)) && Decisions(allowlist).Some?
    ensures var docs := OneLiveTool(server, live, allowlist);
      && Readable(server, Arr([Str(live)]), docs)
      && StringsOf(Get(Entry(docs.reference, server).value, "enabled_tools").value) == Some({live})
      && IntOf(Get(Entry(docs.reference, server).value, "tools_enabled").value) == Some(1)
      && Entry(docs.mainCatalogue, server) == Some(Arr([Str(live)]))
      && Entry(docs.baseline, server) == Entry(docs.reference, server)
  {
    OneString(live);
    OneEntryReads(server, live);
  }

  lemma AtMostOne(names: set<string>, live: string)
    requires names <= {live}
    ensures |names| <= 1
  {
    if names != {} { assert names == {live}; }
  }

  lemma OneLiveToolIsAChange(server: string, live: string, allowlist: Json, today: string)
    requires IsToolName(Str(live)) && Decisions(allowlist).Some?
    requires EnabledTools(Decisions(allowlist).value) <= {live}
    ensures Decide(server, Arr([Str(live)]), OneLiveTool(server, live, allowlist), today).Change?
  {
    OneLiveToolIsReadable(server, live, allowlist);
    AtMostOne(EnabledTools(Decisions(allowlist).value), live);
    assert Missing([Str(live)], [Str(live)]) == [];
  }

  /**
   A tool without a name is not handed over, so the list lands and the lag stays: before
   the change and after it the report asks for the same change.
   */
  lemma NamelessToolKeepsLagging(server: string, live: string, today: string)
    returns (tools: seq<Json>, docs: Inputs)
    requires IsToolName(Str(live))
    ensures tools == [Obj(map["name" := Str(live)]), Obj(map[])] && HandedOver(tools) == [Str(live)]
    ensures docs == OneLiveTool(server, live, Allowlist([Tool(live, true)]))
    ensures Decide(server, Arr(HandedOver(tools)), docs, today).Change?
    ensures CatalogueFileLag(server, tools, docs.mainCatalogue).Some?
    ensures CatalogueFileLag(server, tools, Decide(server, Arr(HandedOver(tools)), docs, today).catalogue).Some?
  {
    tools := [Obj(map["name" := Str(live)]), Obj(map[])];
    docs := OneLiveTool(server, live, Allowlist([Tool(live, true)]));
    NamelessNames(live);
    OneOnIsAChange(server, live, today);
    NullIsNotNamed(Str(live));
    LandedLagExactly(server, tools, docs, today);
    NamelessLags(server, live, tools);
  }

  lemma NullIsNotNamed(first: Json)
    ensures !AllNamed([first, Null])
  {
    var names := [first, Null];
    assert names[1] in names && !Truthy(names[1]);
  }

  lemma NamelessLags(server: string, live: string, tools: seq<Json>)
    requires LiveNames(tools) == [Str(live), Null] && HandedOver(tools) == [Str(live)]
    ensures CatalogueFileLag(server, tools, OneServer(server, Arr([Str(live)]))).Some?
  {
    OneEntryReads(server, live);
    NullIsNotNamed(Str(live));
    HandedOverIsAll(tools);
    LagOfEntry(server, tools, OneServer(server, Arr([Str(live)])), [Str(live)]);
  }

  lemma OneOnIsAChange(server: string, live: string, today: string)
    requires IsToolName(Str(live))
    ensures Decide(server, Arr([Str(live)]), OneLiveTool(server, live, Allowlist([Tool(live, true)])), today).Change?
  {
    OneToolDecides(live, true);
    OneLiveToolIsAChange(server, live, Allowlist([Tool(live, true)]), today);
  }

  lemma NamelessNames(live: string)
    requires live != ""
    ensures var tools := [Obj(map["name" := Str(live)]), Obj(map[])];
      LiveNames(tools) == [Str(live), Null] && HandedOver(tools) == [Str(live)]
  {
    var (first, rest) := (Obj(map["name" := Str(live)]), [Obj(map[])]);
    assert rest[1..] == [] && ([first] + rest)[1..] == rest;
    assert [first] + rest == [first, Obj(map[])];
    assert LiveNames(rest) == [Null] && HandedOver(rest) == [];
  }

  /** main itself passes both checks. */
  lemma MainPasses(server: string, live: string)
    requires IsToolName(Str(live))
    ensures var (files, servers) := (MainFiles(server, live), map[server := VENDORED]);
      && IsVendored(servers[server]) && ToolsOf(files, servers[server], server) == Some([Tool(live, true)])
      && CataloguePasses(files, servers, OneServer(server, Arr([Str(live)])))
      && BaselinePasses(files, servers, OneServer(server, OneToolEntry(live)))
  {
    MainCataloguePasses(server, live);
    MainBaselinePasses(server, live);
  }

  lemma MainCataloguePasses(server: string, live: string)
    requires IsToolName(Str(live))
    ensures CataloguePasses(MainFiles(server, live), map[server := VENDORED], OneServer(server, Arr([Str(live)])))
  {
    var (files, servers, catalogue) := (MainFiles(server, live), map[server := VENDORED], OneServer(server, Arr([Str(live)])));
    OneToolDecides(live, true);
    OneEntryReads(server, live);
    EntryIsTheServers(catalogue, server);
    ToolReads(live, true);
    assert DecidedIn([Tool(live, true)], Str(live)) by {
      assert [Tool(live, true)][0] == Tool(live, true);
    }
    LandedEntryPassesExactly(files, VENDORED, Arr([Str(live)]), server);
    forall sid ensures NoCatalogueProblem(files, servers, catalogue, sid) {
    }
    CataloguePassesEverywhere(files, servers, catalogue);
  }

  lemma MainBaselinePasses(server: string, live: string)
    requires IsToolName(Str(live))
    ensures BaselinePasses(MainFiles(server, live), map[server := VENDORED], OneServer(server, OneToolEntry(live)))
  {
    var (files, servers, baseline) := (MainFiles(server, live), map[server := VENDORED], OneServer(server, OneToolEntry(live)));
    OneToolDecides(live, true);
    OneEntryReads(server, live);
    EntryIsTheServers(baseline, server);
    OneToolEntryIsClean(server, live, [Tool(live, true)]);
    forall sid ensures NoBaselineProblem(files, servers, baseline, sid) {
    }
    BaselinePassesEverywhere(files, servers, baseline);
  }

  lemma OneToolEntryIsClean(server: string, live: string, tools: seq<Json>)
    requires live != "" && CountOn(tools) <= 1 && NamesOn(tools) <= {live}
    ensures BaselineEntryProblems(VENDORED, tools, OneToolEntry(live), server) == []
  {
    OneString(live);
    var b := OneToolEntry(live);
    assert CountsAreInts(b);
    assert EnabledToolsProblems(b, server) == [];
    assert WidensNothing(tools, b);
    WideningExactly(tools, b, server);
    assert PromptProblems(VENDORED, b, server) == [];
  }

  /** The two checks on what is landed, main passing both, with any allowlist on the branch. */
  ghost predicate LandsWith(server: string, live: string, allowlist: Json, today: string, catalogue: bool, baseline: bool) {
    var (docs, files, servers) := (OneLiveTool(server, live, allowlist), MainFiles(server, live), map[server := VENDORED]);
    var outcome := Decide(server, Arr([Str(live)]), docs, today);
    && CataloguePasses(files, servers, docs.mainCatalogue) && BaselinePasses(files, servers, docs.reference)
    && outcome.Change?
    && CataloguePasses(files[server := allowlist], servers, outcome.catalogue) == catalogue
    && BaselinePasses(files[server := allowlist], servers, outcome.baseline) == baseline
  }

  lemma LandedCatalogueHere(server: string, live: string, allowlist: Json, today: string)
    requires IsToolName(Str(live)) && Decisions(allowlist).Some?
    requires EnabledTools(Decisions(allowlist).value) <= {live}
    ensures var (docs, files, servers) := (OneLiveTool(server, live, allowlist), MainFiles(server, live), map[server := VENDORED]);
      && Decide(server, Arr([Str(live)]), docs, today).Change?
      && (CataloguePasses(files[server := allowlist], servers, Decide(server, Arr([Str(live)]), docs, today).catalogue)
          <==> AllDecided(Arr([Str(live)]), allowlist))
  {
    var (docs, files, servers) := (OneLiveTool(server, live, allowlist), MainFiles(server, live), map[server := VENDORED]);
    OneLiveToolIsAChange(server, live, allowlist, today);
    MainPasses(server, live);
    LandedCataloguePassesExactly(files, servers, server, Arr([Str(live)]), docs, today);
  }

  lemma LandedBaselineHere(server: string, live: string, allowlist: Json, today: string)
    requires IsToolName(Str(live)) && Decisions(allowlist).Some?
    requires EnabledTools(Decisions(allowlist).value) <= {live}
    ensures var (docs, files, servers) := (OneLiveTool(server, live, allowlist), MainFiles(server, live), map[server := VENDORED]);
      && Decide(server, Arr([Str(live)]), docs, today).Change?
      && (BaselinePasses(files[server := allowlist], servers, Decide(server, Arr([Str(live)]), docs, today).baseline)
          <==> WidensNothing(ToolList(allowlist), OneToolEntry(live)))
  {
    var (docs, files, servers) := (OneLiveTool(server, live, allowlist), MainFiles(server, live), map[server := VENDORED]);
    OneLiveToolIsAChange(server, live, allowlist, today);
    MainPasses(server, live);
    OneEntryReads(server, live);
    OneEntryIsARecount(server, live);
    LandedBaselinePassesExactly(files, servers, server, Arr([Str(live)]), docs, today);
  }

  lemma OneEntryIsARecount(server: string, live: string)
    ensures var baseline := OneServer(server, OneToolEntry(live)); RecountOf(baseline, baseline, server)
  {
    OneEntryReads(server, live);
  }

  lemma OneToolEntryExactly(tools: seq<Json>, live: string)
    ensures WidensNothing(tools, OneToolEntry(live)) <==> CountOn(tools) <= 1 && NamesOn(tools) <= {live}
  {
    OneString(live);
  }

  lemma OneLiveToolLands(server: string, live: string, allowlist: Json, today: string)
    requires IsToolName(Str(live)) && Decisions(allowlist).Some?
    requires EnabledTools(Decisions(allowlist).value) <= {live}
    ensures LandsWith(server, live, allowlist, today, live in Decisions(allowlist).value,
                      CountOn(ToolList(allowlist)) <= 1 && NamesOn(ToolList(allowlist)) <= {live})
  {
    MainPasses(server, live);
    LandedCatalogueHere(server, live, allowlist, today);
    LandedBaselineHere(server, live, allowlist, today);
    OneToolEntryExactly(ToolList(allowlist), live);
    LiveAloneIsDecided(live, allowlist);
  }

  lemma LiveAloneIsDecided(live: string, allowlist: Json)
    requires Decisions(allowlist).Some?
    ensures AllDecided(Arr([Str(live)]), allowlist) <==> live in Decisions(allowlist).value
  {
    DecisionsAreEntries(allowlist);
    assert [Str(live)][0] == Str(live);
  }

  /**
   An allowlist that dropped a tool the portal still serves is not refused: main passes
   both checks, the change is decided, and the catalogue check refuses what is landed.
   */
  lemma DroppedToolIsNotRefused(server: string, live: string, kept: string, today: string)
    requires IsToolName(Str(live)) && IsToolName(Str(kept)) && live != kept
    ensures LandsWith(server, live, Allowlist([Tool(kept, false)]), today, false, true)
  {
    OneToolDecides(kept, false);
    OneLiveToolLands(server, live, Allowlist([Tool(kept, false)]), today);
  }

  /**
   Nor is one that names an enabled tool twice: main passes both checks, the change is
   decided, and the baseline check counts the tool twice and refuses what is landed.
   */
  lemma RepeatedToolIsNotRefused(server: string, live: string, today: string)
    requires IsToolName(Str(live))
    ensures LandsWith(server, live, Allowlist([Tool(live, true), Tool(live, true)]), today, true, false)
  {
    RepeatedToolDecides(live);
    OneLiveToolLands(server, live, Allowlist([Tool(live, true), Tool(live, true)]), today);
  }

  lemma RepeatedToolDecides(live: string)
    requires IsToolName(Str(live))
    ensures var tools := [Tool(live, true), Tool(live, true)];
      && Decisions(Allowlist(tools)) == Some(map[live := true])
      && ToolList(Allowlist(tools)) == tools && CountOn(tools) == 2
  {
    OneToolLast(live, true);
    LastToolReads([Tool(live, true)], live, true);
    var tools := [Tool(live, true), Tool(live, true)];
    assert [Tool(live, true)] + [Tool(live, true)] == tools;
    assert map[live := Bool(true)][live := Bool(true)] == map[live := Bool(true)];
    SwitchesDecide(tools, map[live := Bool(true)], map[live := true]);
  }

  /** A tool that main does not allow, on in one entry and off in a later one. */
  function HiddenSwitch(live: string, extra: string): seq<Json> {
    [Tool(extra, true), Tool(extra, false)] + [Tool(live, false)]
  }

  /**
   Nor is one whose later entry turns a tool off again that main does not allow: the
   baseline check reads the earlier entry and refuses what is landed, no count exceeded.
   */
  lemma HiddenSwitchIsNotRefused(server: string, live: string, extra: string, today: string)
    requires IsToolName(Str(live)) && IsToolName(Str(extra)) && live != extra
    ensures CountOn(HiddenSwitch(live, extra)) <= 1
    ensures LandsWith(server, live, Allowlist(HiddenSwitch(live, extra)), today, true, false)
  {
    HiddenSwitchDecides(live, extra);
    OneLiveToolLands(server, live, Allowlist(HiddenSwitch(live, extra)), today);
    assert extra in NamesOn(HiddenSwitch(live, extra));
  }

  lemma SwitchedOff(extra: string)
    ensures var tools := [Tool(extra, true), Tool(extra, false)];
      LastEnabled(tools) == Some(map[extra := Bool(false)]) && CountOn(tools) == 1 && NamesOn(tools) == {extra}
  {
    OneToolLast(extra, true);
    LastToolReads([Tool(extra, true)], extra, false);
    assert [Tool(extra, true)] + [Tool(extra, false)] == [Tool(extra, true), Tool(extra, false)];
    assert map[extra := Bool(true)][extra := Bool(false)] == map[extra := Bool(false)];
  }

  lemma HiddenSwitchDecides(live: string, extra: string)
    requires IsToolName(Str(live)) && IsToolName(Str(extra)) && live != extra
    ensures var tools := HiddenSwitch(live, extra);
      && Decisions(Allowlist(tools)) == Some(map[extra := false, live := false])
      && ToolList(Allowlist(tools)) == tools && CountOn(tools) == 1 && NamesOn(tools) == {extra}
  {
    SwitchedOff(extra);
    LastToolReads([Tool(extra, true), Tool(extra, false)], live, false);
    TwoSwitchesOff(HiddenSwitch(live, extra), live, extra);
  }

  lemma TwoSwitchesOff(tools: seq<Json>, live: string, extra: string)
    requires tools != [] && LastEnabled(tools) == Some(map[extra := Bool(false)][live := Bool(false)])
    requires IsToolName(Str(live)) && IsToolName(Str(extra)) && live != extra
    ensures Decisions(Allowlist(tools)) == Some(map[extra := false, live := false]) && ToolList(Allowlist(tools)) == tools
  {
    var last := map[extra := Bool(false)][live := Bool(false)];
    SwitchesDecide(tools, last, map[extra := false, live := false]);
  }
}
