/**
 The decision of scripts/portal-catalogue-land.py: whether the live tool list of a portal
 server may be written to catalogue.json without anyone deciding anything, and the lag
 report of scripts/portal-catalogue-drift.py that asks for it.
 */
module PortalDecision {
  import opened Wrappers
  import opened Seqs
  import opened JsonDocs

  // ---------------------------------------------------------------- lists of names

  predicate IsToolChar(c: char) {
    'A' <= c <= 'Z' || 'a' <= c <= 'z' || '0' <= c <= '9' || c == '_' || c == '.' || c == ':' || c == '-'
  }

  /** TOOL_RE */
  predicate IsToolName(j: Json) {
    j.Str? && 1 <= |j.s| <= 128 && forall i :: 0 <= i < |j.s| ==> IsToolChar(j.s[i])
  }

  predicate AllToolNames(items: seq<Json>) {
    forall i :: 0 <= i < |items| ==> IsToolName(items[i])
  }

  /** check_live */
  predicate IsLiveList(live: Json) {
    live.Arr? && live.items != [] && AllToolNames(live.items) && Distinct(live.items)
  }

  /** [n for n in xs if n not in ys] */
  function Missing(xs: seq<Json>, ys: seq<Json>): (r: seq<Json>)
    ensures forall n :: n in r <==> n in xs && n !in ys
  {
    if xs == [] then []
    else (if xs[0] in ys then [] else [xs[0]]) + Missing(xs[1..], ys)
  }

  // ---------------------------------------------------------------- document entries

  /** doc["servers"][server] */
  function Entry(doc: Json, server: string): Option<Json> {
    match Get(doc, "servers")
    case None => None
    case Some(servers) => Get(servers, server)
  }

  /** doc["servers"][server] = value */
  function SetEntry(doc: Json, server: string, value: Json): Json
    requires Entry(doc, server).Some?
  {
    Obj(doc.fields["servers" := Obj(doc.fields["servers"].fields[server := value])])
  }

  lemma SetEntryReads(doc: Json, server: string, value: Json, other: string)
    requires Entry(doc, server).Some?
    ensures Entry(SetEntry(doc, server, value), other)
         == if other == server then Some(value) else Entry(doc, other)
  {
  }

  lemma SetEntryReadsAll(doc: Json, server: string, value: Json)
    requires Entry(doc, server).Some?
    ensures Entry(SetEntry(doc, server, value), server) == Some(value)
    ensures forall other :: other != server ==> Entry(SetEntry(doc, server, value), other) == Entry(doc, other)
  {
    forall other ensures other != server ==> Entry(SetEntry(doc, server, value), other) == Entry(doc, other) {
      SetEntryReads(doc, server, value, other);
    }
  }

  lemma SetSameEntry(doc: Json, server: string)
    requires Entry(doc, server).Some?
    ensures SetEntry(doc, server, Entry(doc, server).value) == doc
  {
    var servers := doc.fields["servers"].fields;
    assert servers[server := servers[server]] == servers;
    assert doc.fields["servers" := doc.fields["servers"]] == doc.fields;
  }

  /** What a person decides: everything but the two fields the script itself writes. */
  function DecisionFields(entry: Json): map<string, Json>
    requires entry.Obj?
  {
    entry.fields - {"tools_total", "recorded"}
  }

  // ---------------------------------------------------------------- the allowlist

  /** Every tool's last `enabled` value, by name; None for an entry without a string name. */
  function LastEnabled(tools: seq<Json>): Option<map<string, Json>> {
    if tools == [] then Some(map[])
    else
      var last := tools[|tools| - 1];
      var (name, enabled) := (Get(last, "name"), Get(last, "enabled"));
      var before := LastEnabled(tools[..|tools| - 1]);
      if before.Some? && name.Some? && name.value.Str? && enabled.Some?
      then Some(before.value[name.value.s := enabled.value]) else None
  }

  /** The decisions of an allowlist; None when it is malformed. */
  function Decisions(allowlist: Json): Option<map<string, bool>> {
    match Get(allowlist, "tools")
    case Some(Arr(tools)) =>
      var last := LastEnabled(tools);
      if tools != [] && last.Some?
         && (forall n :: n in last.value ==> last.value[n].Bool? && IsToolName(Str(n)))
      then Some(map n | n in last.value :: last.value[n].b) else None
    case _ => None
  }

  function EnabledTools(decisions: map<string, bool>): set<string> {
    set n | n in decisions && decisions[n]
  }

  /** set(j): the strings in it; a string iterates over its characters and a mapping over its keys. */
  function StringsOf(j: Json): Option<set<string>> {
    match j
    case Arr(items) =>
      if exists i :: 0 <= i < |items| && (items[i].Arr? || items[i].Obj?) then None
      else Some(set i | 0 <= i < |items| && items[i].Str? :: items[i].s)
    case Str(s) => Some(set i | 0 <= i < |s| :: [s[i]])
    case Obj(fields) => Some(fields.Keys)
    case _ => None
  }

  function IntOf(j: Json): Option<int> {
    match j
    case Num(n) => Some(n)
    case Bool(b) => Some(if b then 1 else 0)
    case _ => None
  }

  // ---------------------------------------------------------------- decide

  datatype Reason =
    | BaselineEdited
    | Undecided(names: seq<Json>)
    | TurnsOn(names: seq<Json>)
    | EnabledLeft(names: seq<Json>)
    | Widens(tools: set<string>)
    | TooMany(enabled: nat, allowed: int)

  datatype Outcome =
    | Unknown
    | Refusal(reason: Reason)
    | Change(catalogue: Json, baseline: Json, added: seq<Json>, gone: seq<Json>, baselineChanged: bool)

  // The target branch's documents, then main's.
  datatype Inputs = Inputs(catalogue: Json, baseline: Json, allowlist: Json, reference: Json, mainCatalogue: Json)

  /** The entries that decide() reads are all there and of the right shape. */
  predicate Readable(server: string, live: Json, docs: Inputs) {
    && IsLiveList(live)
    && Decisions(docs.allowlist).Some?
    && IsCatalogueEntry(Entry(docs.catalogue, server)) && IsCatalogueEntry(Entry(docs.mainCatalogue, server))
    && Entry(docs.baseline, server).Some? && Entry(docs.baseline, server).value.Obj?
    && IsBaselineEntry(Entry(docs.reference, server))
  }

  predicate IsCatalogueEntry(entry: Option<Json>) {
    entry.Some? && entry.value.Arr? && AllToolNames(entry.value.items)
  }

  predicate IsBaselineEntry(entry: Option<Json>) {
    && entry.Some? && entry.value.Obj?
    && Get(entry.value, "enabled_tools").Some? && StringsOf(Get(entry.value, "enabled_tools").value).Some?
    && Get(entry.value, "tools_enabled").Some? && IntOf(Get(entry.value, "tools_enabled").value).Some?
  }

  function DecidedAndOn(names: seq<Json>, decisions: map<string, bool>): (r: seq<Json>)
    ensures forall n :: n in r <==> n in names && n.Str? && n.s in decisions && decisions[n.s]
  {
    if names == [] then []
    else (if names[0].Str? && names[0].s in decisions && decisions[names[0].s] then [names[0]] else [])
         + DecidedAndOn(names[1..], decisions)
  }

  function NotDecided(names: seq<Json>, decisions: map<string, bool>): (r: seq<Json>)
    ensures forall n :: n in r <==> n in names && !(n.Str? && n.s in decisions)
  {
    if names == [] then []
    else (if names[0].Str? && names[0].s in decisions then [] else [names[0]]) + NotDecided(names[1..], decisions)
  }

  predicate RecordsTotal(entry: Json, total: nat) {
    Get(entry, "tools_total").Some? && PyEq(Get(entry, "tools_total").value, Num(total))
  }

  function Recount(entry: Json, total: nat, today: string): Json
    requires entry.Obj?
  {
    Obj(entry.fields["tools_total" := Num(total)]["recorded" := Str(today)])
  }

  predicate HasEntry(doc: Json, server: string) {
    Entry(doc, server).Some? && Entry(doc, server).value.Obj?
  }

  /** The baseline with the recorded total brought up to date, and untouched when it already is. */
  function NewBaseline(baseline: Json, server: string, total: nat, today: string): Json
    requires HasEntry(baseline, server)
  {
    var entry := Entry(baseline, server).value;
    if RecordsTotal(entry, total) then baseline else SetEntry(baseline, server, Recount(entry, total, today))
  }

  /** Why the change is refused, if it is, from the decision fields of the two baseline entries. */
  function Objection(live: seq<Json>, merged: seq<Json>, fields: map<string, Json>, refFields: map<string, Json>,
                     decisions: map<string, bool>, allowed: set<string>, allowedCount: int): Option<Reason> {
    var added := Missing(live, merged);
    var gone := Missing(merged, live);
    var enabled := EnabledTools(decisions);
    if !PyEq(Obj(fields), Obj(refFields)) then Some(BaselineEdited)
    else if NotDecided(added, decisions) != [] then Some(Undecided(NotDecided(added, decisions)))
    else if DecidedAndOn(added, decisions) != [] then Some(TurnsOn(DecidedAndOn(added, decisions)))
    else if DecidedAndOn(gone, decisions) != [] then Some(EnabledLeft(DecidedAndOn(gone, decisions)))
    else if !(enabled <= allowed) then Some(Widens(enabled - allowed))
    else if |enabled| > allowedCount then Some(TooMany(|enabled|, allowedCount))
    else None
  }

  function ObjectionTo(server: string, live: Json, docs: Inputs): Option<Reason>
    requires Readable(server, live, docs)
  {
    var ref := Entry(docs.reference, server).value;
    Objection(live.items, Entry(docs.mainCatalogue, server).value.items,
              DecisionFields(Entry(docs.baseline, server).value), DecisionFields(ref),
              Decisions(docs.allowlist).value,
              StringsOf(Get(ref, "enabled_tools").value).value, IntOf(Get(ref, "tools_enabled").value).value)
  }

  /**
   decide(): added and gone are measured against main's catalogue, never the branch's, so
   a branch that already holds the live list is still looked at.
   */
  function Decide(server: string, live: Json, docs: Inputs, today: string): Outcome {
    if !Readable(server, live, docs) then Unknown
    else match ObjectionTo(server, live, docs)
      case Some(reason) => Refusal(reason)
      case None =>
        var merged := Entry(docs.mainCatalogue, server).value.items;
        var total := |Decisions(docs.allowlist).value|;
        Change(
          SetEntry(docs.catalogue, server, live),
          NewBaseline(docs.baseline, server, total, today),
          Missing(live.items, merged), Missing(merged, live.items),
          !RecordsTotal(Entry(docs.baseline, server).value, total))
  }

  // ---------------------------------------------------------------- what a Change promises

  /** The tools of a catalogue list that the allowlist enables. */
  function Exposed(names: seq<Json>, decisions: map<string, bool>): set<string> {
    set i | 0 <= i < |names| && names[i].Str? && names[i].s in decisions && decisions[names[i].s] :: names[i].s
  }

  lemma SameExposure(live: seq<Json>, merged: seq<Json>, decisions: map<string, bool>)
    requires DecidedAndOn(Missing(live, merged), decisions) == []
    requires DecidedAndOn(Missing(merged, live), decisions) == []
    ensures Exposed(live, decisions) == Exposed(merged, decisions)
  {
    forall n | n in Exposed(live, decisions) ensures n in Exposed(merged, decisions) {
      assert Str(n) in live;
      assert Str(n) !in DecidedAndOn(Missing(live, merged), decisions);
    }
    forall n | n in Exposed(merged, decisions) ensures n in Exposed(live, decisions) {
      assert Str(n) in merged;
      assert Str(n) !in DecidedAndOn(Missing(merged, live), decisions);
    }
  }

  /**
   Exposure: a Change leaves exactly the tools enabled that main's catalogue enabled under
   the same allowlist, all of them allowed by main's baseline.
   */
  lemma ChangeKeepsExposure(server: string, live: Json, docs: Inputs, today: string)
    requires Decide(server, live, docs, today).Change?
    ensures var decisions := Decisions(docs.allowlist).value;
      && Exposed(live.items, decisions) == Exposed(Entry(docs.mainCatalogue, server).value.items, decisions)
      && EnabledTools(decisions) <= StringsOf(Get(Entry(docs.reference, server).value, "enabled_tools").value).value
      && |EnabledTools(decisions)| <= IntOf(Get(Entry(docs.reference, server).value, "tools_enabled").value).value
  {
    SameExposure(live.items, Entry(docs.mainCatalogue, server).value.items, Decisions(docs.allowlist).value);
  }

  lemma NewBaselineOnlyRecounts(baseline: Json, server: string, total: nat, today: string)
    requires HasEntry(baseline, server)
    ensures var next := NewBaseline(baseline, server, total, today);
      && HasEntry(next, server)
      && DecisionFields(Entry(next, server).value) == DecisionFields(Entry(baseline, server).value)
      && RecordsTotal(Entry(next, server).value, total)
      && (forall other :: other != server ==> Entry(next, other) == Entry(baseline, other))
  {
    var entry := Entry(baseline, server).value;
    assert DecisionFields(Recount(entry, total, today)) == DecisionFields(entry);
    assert Get(Recount(entry, total, today), "tools_total") == Some(Num(total));
  }

  /** What a Change writes: the live list and the recount, for this server and no other. */
  lemma ChangeWritesOnlyItsEntries(server: string, live: Json, docs: Inputs, today: string)
    requires Decide(server, live, docs, today).Change?
    ensures var c := Decide(server, live, docs, today);
      && HasEntry(docs.baseline, server) && Decisions(docs.allowlist).Some?
      && Entry(c.catalogue, server) == Some(live)
      && c.baseline == NewBaseline(docs.baseline, server, |Decisions(docs.allowlist).value|, today)
      && (c.baselineChanged <==> !RecordsTotal(Entry(docs.baseline, server).value, |Decisions(docs.allowlist).value|))
      && (forall other :: other != server ==> Entry(c.catalogue, other) == Entry(docs.catalogue, other))
  {
    SetEntryReadsAll(docs.catalogue, server, live);
  }

  /**
   Resuming: with some of a Change's writes already on the branch, whichever and from
   whatever day, the decision is the same Change and asks for exactly the missing ones.
   */
  lemma ResumedDecision(
    server: string, live: Json, docs: Inputs, first: string, catalogue: Json, baseline: Json, written: string, today: string)
    requires Decide(server, live, docs, first).Change?
    requires catalogue == docs.catalogue || catalogue == SetEntry(docs.catalogue, server, live)
    requires HasEntry(docs.baseline, server) && Decisions(docs.allowlist).Some?
    requires || baseline == docs.baseline
             || baseline == NewBaseline(docs.baseline, server, |Decisions(docs.allowlist).value|, written)
    ensures var (c, total) := (Decide(server, live, docs, first), |Decisions(docs.allowlist).value|);
      && HasEntry(baseline, server)
      && Decide(server, live, docs.(catalogue := catalogue, baseline := baseline), today)
         == Change(SetEntry(docs.catalogue, server, live), NewBaseline(baseline, server, total, today),
                   c.added, c.gone, !RecordsTotal(Entry(baseline, server).value, total))
  {
    NewBaselineOnlyRecounts(docs.baseline, server, |Decisions(docs.allowlist).value|, written);
    var next := SetEntry(docs.catalogue, server, live);
    SetEntryReads(docs.catalogue, server, live, server);
    SetSameEntry(next, server);
    var resumed := docs.(catalogue := catalogue, baseline := baseline);
    SameObjection(server, live, docs, resumed);
  }

  /** The verdict depends on main, the allowlist and the decision fields, not on what was written so far. */
  lemma SameObjection(server: string, live: Json, docs: Inputs, resumed: Inputs)
    requires Readable(server, live, docs)
    requires resumed == docs.(catalogue := resumed.catalogue, baseline := resumed.baseline)
    requires IsCatalogueEntry(Entry(resumed.catalogue, server)) && HasEntry(resumed.baseline, server)
    requires DecisionFields(Entry(resumed.baseline, server).value) == DecisionFields(Entry(docs.baseline, server).value)
    ensures Readable(server, live, resumed)
    ensures ObjectionTo(server, live, resumed) == ObjectionTo(server, live, docs)
  {
  }

  /** Deciding again on the result, on any later day, is a Change with nothing left to write. */
  lemma DecidingAgainWritesNothing(server: string, live: Json, docs: Inputs, today: string, later: string)
    requires Decide(server, live, docs, today).Change?
    ensures var c := Decide(server, live, docs, today);
      Decide(server, live, docs.(catalogue := c.catalogue, baseline := c.baseline), later)
      == Change(c.catalogue, c.baseline, c.added, c.gone, false)
  {
    var c := Decide(server, live, docs, today);
    ResumedDecision(server, live, docs, today, c.catalogue, c.baseline, today, later);
    NewBaselineOnlyRecounts(docs.baseline, server, |Decisions(docs.allowlist).value|, today);
  }

  // ---------------------------------------------------------------- the lag report

  datatype Lag = NotCommitted(tools: nat) | Differs | Reordered

  /** [t.get("name") for t in tools if it is a mapping], None for a missing name. */
  function LiveNames(tools: seq<Json>): (names: seq<Json>)
  {
    if tools == [] then []
    else (if tools[0].Obj? then [if Get(tools[0], "name").Some? then Get(tools[0], "name").value else Null] else [])
         + LiveNames(tools[1..])
  }

  /** catalogue_file_lag, over snapshot tools that are a list and a committed list of names. */
  function CatalogueFileLag(server: string, tools: seq<Json>, catalogue: Json): Option<Lag> {
    var live := LiveNames(tools);
    if live == [] then None
    else match Entry(catalogue, server)
      case Some(Arr(want)) =>
        if PyEq(Arr(want), Arr(live)) then None
        else if Missing(live, want) != [] || Missing(want, live) != [] then Some(Differs)
        else Some(Reordered)
      case _ => Some(NotCommitted(|live|))
  }

  /** The list the drift job hands to the lander: [t["name"]] of the mappings whose name is not empty. */
  function HandedOver(tools: seq<Json>): (names: seq<Json>)
  {
    if tools == [] then []
    else (if Get(tools[0], "name").Some? && Truthy(Get(tools[0], "name").value) then [Get(tools[0], "name").value] else [])
         + HandedOver(tools[1..])
  }

  predicate AllNamed(names: seq<Json>) {
    forall n :: n in names ==> Truthy(n)
  }

  /** The two lists agree, in length already, exactly when every tool has a name. */
  lemma {:induction false} HandedOverIsShorter(tools: seq<Json>)
    ensures |HandedOver(tools)| <= |LiveNames(tools)|
    ensures AllNamed(LiveNames(tools)) ==> HandedOver(tools) == LiveNames(tools)
    ensures !AllNamed(LiveNames(tools)) ==> |HandedOver(tools)| < |LiveNames(tools)|
  {
    if tools != [] {
      HandedOverIsShorter(tools[1..]);
      var rest := LiveNames(tools[1..]);
      if tools[0].Obj? {
        assert LiveNames(tools)[1..] == rest;
        assert AllNamed(LiveNames(tools)) <==> Truthy(LiveNames(tools)[0]) && AllNamed(rest);
      } else {
        assert LiveNames(tools) == rest && HandedOver(tools) == HandedOver(tools[1..]);
      }
    }
  }

  lemma EqualListsHaveOneLength(xs: seq<Json>, ys: seq<Json>)
    requires PyEq(Arr(xs), Arr(ys))
    ensures |xs| == |ys|
  {
    assert |Canonical(Arr(xs)).items| == |xs| && |Canonical(Arr(ys)).items| == |ys|;
  }

  lemma LagOfEntry(server: string, tools: seq<Json>, catalogue: Json, want: seq<Json>)
    requires Entry(catalogue, server) == Some(Arr(want)) && LiveNames(tools) != []
    ensures CatalogueFileLag(server, tools, catalogue).None? <==> PyEq(Arr(want), Arr(LiveNames(tools)))
  {
  }

  lemma HandedOverIsAll(tools: seq<Json>)
    ensures PyEq(Arr(HandedOver(tools)), Arr(LiveNames(tools))) <==> AllNamed(LiveNames(tools))
  {
    HandedOverIsShorter(tools);
    if PyEq(Arr(HandedOver(tools)), Arr(LiveNames(tools))) {
      EqualListsHaveOneLength(HandedOver(tools), LiveNames(tools));
    }
  }

  lemma ChangeLandsTheList(server: string, live: Json, docs: Inputs, today: string)
    requires Decide(server, live, docs, today).Change?
    ensures live.Arr? && live.items != [] && Entry(Decide(server, live, docs, today).catalogue, server) == Some(live)
  {
    ChangeWritesOnlyItsEntries(server, live, docs, today);
  }

  /** After landing what the drift job handed over, that server has no lag exactly when every live tool has a name. */
  lemma LandedLagExactly(server: string, tools: seq<Json>, docs: Inputs, today: string)
    requires Decide(server, Arr(HandedOver(tools)), docs, today).Change?
    ensures CatalogueFileLag(server, tools, Decide(server, Arr(HandedOver(tools)), docs, today).catalogue).None?
       <==> forall n :: n in LiveNames(tools) ==> Truthy(n)
  {
    var handed := HandedOver(tools);
    ChangeLandsTheList(server, Arr(handed), docs, today);
    HandedOverIsShorter(tools);
    HandedOverIsAll(tools);
    LagOfEntry(server, tools, Decide(server, Arr(handed), docs, today).catalogue, handed);
  }

  /** So there is none when the whole list could be landed. */
  lemma LandedCatalogueHasNoLag(server: string, tools: seq<Json>, docs: Inputs, today: string)
    requires Decide(server, Arr(LiveNames(tools)), docs, today).Change?
    ensures HandedOver(tools) == LiveNames(tools)
    ensures CatalogueFileLag(server, tools, Decide(server, Arr(HandedOver(tools)), docs, today).catalogue).None?
  {
    HandedOverIsShorter(tools);
    forall n | n in LiveNames(tools) ensures Truthy(n) {
      assert IsToolName(n);
    }
    LandedLagExactly(server, tools, docs, today);
  }
}
