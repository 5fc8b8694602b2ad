/**
 platform-gitops/argo-workflows/scripts/rewrite_preview_values.py: the values of a service
 are rewritten so that a preview release reads only Vault paths under its preview/ prefix.
 */
module PreviewRewrite {
  import opened Wrappers
  import opened JsonDocs
  import opened Text
  import opened Seqs

  // ---------------------------------------------------------------- one key

  const DATA_PREFIX := "secret/data/"
  const PLATFORM := "platform/"
  const TEAMS := "teams/"

  function TeamPrefix(team: string): string {
    TEAMS + team + "/"
  }

  /** strip_data_prefix() */
  function StripData(key: string): (string, string) {
    if DATA_PREFIX <= key then (DATA_PREFIX, key[|DATA_PREFIX|..]) else ("", key)
  }

  /** The service and what comes after it: rest.split("/", 1) */
  function ServiceOf(rest: string): string {
    rest[..Index(rest, '/')]
  }

  function RemainderOf(rest: string): string {
    if Index(rest, '/') < |rest| then rest[Index(rest, '/') + 1..] else ""
  }

  predicate IsPreview(remainder: string) {
    "preview/" <= remainder || remainder == "preview"
  }

  function Below(remainder: string): string {
    if remainder == "" then "preview" else "preview" + (['/'] + remainder)
  }

  /** A tenant path behind the team, with preview/ put behind the service unless it is there. */
  function PreviewRest(rest: string): string {
    var remainder := RemainderOf(rest);
    if IsPreview(remainder) then rest else ServiceOf(rest) + ['/'] + Below(remainder)
  }

  /** rewrite_remote_key(); None when the deploy is refused. */
  function RewriteKey(key: string, team: string): Option<string> {
    if key == "" then Some(key)
    else
      var (prefix, path) := StripData(key);
      if PLATFORM <= path then Some(key)
      else if !(TEAMS <= path) then None
      else if !(TeamPrefix(team) <= path) then None
      else
        var rest := path[|TeamPrefix(team)|..];
        if IsPreview(RemainderOf(rest)) then Some(key)
        else Some(prefix + (TeamPrefix(team) + PreviewRest(rest)))
  }

  predicate IsTenantKey(key: string, team: string) {
    TeamPrefix(team) <= StripData(key).1
  }

  /** What is behind the team in a tenant key. */
  function Rest(key: string, team: string): string
    requires IsTenantKey(key, team)
  {
    StripData(key).1[|TeamPrefix(team)|..]
  }

  function TenantKey(prefix: string, team: string, rest: string): string {
    prefix + (TeamPrefix(team) + rest)
  }

  predicate IsPlatformKey(key: string) {
    key == "" || PLATFORM <= StripData(key).1
  }

  /** A team path is none of the others. */
  lemma TeamPathsStandApart(team: string, rest: string)
    ensures var path := TeamPrefix(team) + rest;
      TEAMS <= path && !(PLATFORM <= path) && !(DATA_PREFIX <= path) && path != ""
  {
    var path := TeamPrefix(team) + rest;
    assert path[0] == 't' && PLATFORM[0] == 'p' && DATA_PREFIX[0] == 's';
    assert path == TEAMS + (team + "/" + rest);
  }

  lemma TenantKeyReads(prefix: string, team: string, rest: string)
    requires prefix == "" || prefix == DATA_PREFIX
    ensures var key := TenantKey(prefix, team, rest);
      IsTenantKey(key, team) && StripData(key).0 == prefix && Rest(key, team) == rest && !IsPlatformKey(key)
  {
    TeamPathsStandApart(team, rest);
    var key := TenantKey(prefix, team, rest);
    if prefix == "" {
      assert key == TeamPrefix(team) + rest;
    } else {
      assert key[|DATA_PREFIX|..] == TeamPrefix(team) + rest;
    }
  }

  lemma TenantKeyIsWritten(key: string, team: string)
    requires IsTenantKey(key, team)
    ensures key == TenantKey(StripData(key).0, team, Rest(key, team))
    ensures StripData(key).0 == "" || StripData(key).0 == DATA_PREFIX
    ensures !IsPlatformKey(key)
  {
    var (prefix, path) := StripData(key);
    assert path == TeamPrefix(team) + Rest(key, team);
    TeamPathsStandApart(team, Rest(key, team));
    if prefix == "" {
      assert "" + path == path;
    }
  }

  /** The three ways it goes: left alone, moved under preview/, refused. */
  lemma RewriteKeyShape(key: string, team: string)
    ensures RewriteKey(key, team)
         == if IsPlatformKey(key) then Some(key)
            else if IsTenantKey(key, team) then Some(TenantKey(StripData(key).0, team, PreviewRest(Rest(key, team))))
            else None
  {
    if IsTenantKey(key, team) {
      TenantKeyIsWritten(key, team);
      TeamPathsStandApart(team, Rest(key, team));
    }
  }

  lemma ServiceIsRead(service: string, remainder: string)
    requires '/' !in service
    ensures ServiceOf(service + ['/'] + remainder) == service && RemainderOf(service + ['/'] + remainder) == remainder
  {
    var rest := service + ['/'] + remainder;
    assert rest[|service|] == '/';
    assert forall j :: 0 <= j < |service| ==> rest[j] == service[j];
    assert Index(rest, '/') == |service|;
  }

  lemma BelowIsPreview(remainder: string)
    ensures IsPreview(Below(remainder))
    ensures remainder != "" ==> Below(remainder) == "preview/" + remainder
  {
    assert "preview" + ['/'] == "preview/";
    if remainder != "" {
      assert "preview" + (['/'] + remainder) == ("preview" + ['/']) + remainder;
    }
  }

  /** Behind the rewrite there is a service and then preview, alone or with something below it. */
  lemma PreviewRestReads(rest: string)
    ensures IsPreview(RemainderOf(PreviewRest(rest))) && ServiceOf(PreviewRest(rest)) == ServiceOf(rest)
    ensures !IsPreview(RemainderOf(rest)) ==> RemainderOf(PreviewRest(rest)) == Below(RemainderOf(rest))
  {
    if !IsPreview(RemainderOf(rest)) {
      ServiceIsRead(ServiceOf(rest), Below(RemainderOf(rest)));
      BelowIsPreview(RemainderOf(rest));
    }
  }

  /** Rewriting a rewritten key changes nothing. */
  lemma RewriteKeyIsIdempotent(key: string, team: string)
    requires RewriteKey(key, team).Some?
    ensures RewriteKey(RewriteKey(key, team).value, team) == RewriteKey(key, team)
  {
    RewriteKeyShape(key, team);
    var next := RewriteKey(key, team).value;
    RewriteKeyShape(next, team);
    if !IsPlatformKey(key) {
      TenantKeyIsWritten(key, team);
      TenantKeyReads(StripData(key).0, team, PreviewRest(Rest(key, team)));
      PreviewRestReads(Rest(key, team));
    }
  }

  /** An accepted key of a tenant reads below <service>/preview of its own team after the rewrite, and nowhere else. */
  lemma RewrittenReadsPreview(key: string, team: string)
    requires RewriteKey(key, team).Some? && !IsPlatformKey(key)
    ensures var next := RewriteKey(key, team).value;
      && IsTenantKey(next, team) && IsPreview(RemainderOf(Rest(next, team)))
      && StripData(next).0 == StripData(key).0
      && IsTenantKey(key, team) && ServiceOf(Rest(next, team)) == ServiceOf(Rest(key, team))
  {
    RewriteKeyShape(key, team);
    TenantKeyIsWritten(key, team);
    TenantKeyReads(StripData(key).0, team, PreviewRest(Rest(key, team)));
    PreviewRestReads(Rest(key, team));
  }

  // ---------------------------------------------------------------- which keys collide

  /** A tenant key that ends with the service, with or without a slash behind it. */
  predicate EndsAtService(key: string, team: string) {
    IsTenantKey(key, team) && RemainderOf(Rest(key, team)) == ""
  }

  predicate IsUnderPreview(key: string, team: string) {
    IsTenantKey(key, team) && IsPreview(RemainderOf(Rest(key, team)))
  }

  lemma RestIsPutTogether(rest: string)
    ensures rest == if Index(rest, '/') == |rest| then ServiceOf(rest) else ServiceOf(rest) + ['/'] + RemainderOf(rest)
    ensures '/' !in ServiceOf(rest)
  {
    if Index(rest, '/') < |rest| {
      CutAround(rest, Index(rest, '/'));
    } else {
      CutAt(rest, |rest|);
    }
  }

  /** Two different rests are rewritten to one exactly when they differ by a slash behind the service. */
  lemma RestsCollideExactly(a: string, b: string)
    requires !IsPreview(RemainderOf(a)) && !IsPreview(RemainderOf(b))
    ensures PreviewRest(a) == PreviewRest(b)
       <==> a == b || (ServiceOf(a) == ServiceOf(b) && RemainderOf(a) == RemainderOf(b) == "")
  {
    PreviewRestReads(a);
    PreviewRestReads(b);
    RestIsPutTogether(a);
    RestIsPutTogether(b);
    if PreviewRest(a) == PreviewRest(b) {
      SameRemainder(RemainderOf(a), RemainderOf(b));
    }
  }

  lemma SameRemainder(a: string, b: string)
    requires Below(a) == Below(b)
    ensures a == b
  {
    if a != "" && b != "" {
      BelowIsPreview(a);
      BelowIsPreview(b);
      assert ("preview/" + a)[8..] == a && ("preview/" + b)[8..] == b;
    }
  }

  /**
   Two accepted keys not yet under preview/ are rewritten to one key exactly when they are
   the same key, or both end at the same service and differ only in the slash behind it.
   */
  lemma KeysCollideExactly(key: string, other: string, team: string)
    requires RewriteKey(key, team).Some? && RewriteKey(other, team).Some?
    requires !IsUnderPreview(key, team) && !IsUnderPreview(other, team)
    ensures RewriteKey(key, team) == RewriteKey(other, team)
       <==> || key == other
            || (EndsAtService(key, team) && EndsAtService(other, team) && StripData(key).0 == StripData(other).0
                && ServiceOf(Rest(key, team)) == ServiceOf(Rest(other, team)))
  {
    RewriteKeyShape(key, team);
    RewriteKeyShape(other, team);
    if IsPlatformKey(key) || IsPlatformKey(other) {
      PlatformStandsApart(key, other, team);
    } else {
      TenantsCollideExactly(key, other, team);
    }
  }

  lemma PlatformStandsApart(key: string, other: string, team: string)
    requires IsPlatformKey(key) || IsPlatformKey(other)
    requires RewriteKey(key, team).Some? && RewriteKey(other, team).Some?
    ensures RewriteKey(key, team) == RewriteKey(other, team) <==> key == other
    ensures !(IsTenantKey(key, team) && IsTenantKey(other, team))
  {
    RewriteKeyShape(key, team);
    RewriteKeyShape(other, team);
    if !IsPlatformKey(key) {
      TenantKeyIsWritten(key, team);
      TenantKeyReads(StripData(key).0, team, PreviewRest(Rest(key, team)));
    } else if !IsPlatformKey(other) {
      TenantKeyIsWritten(other, team);
      TenantKeyReads(StripData(other).0, team, PreviewRest(Rest(other, team)));
    }
    if IsTenantKey(key, team) {
      TenantKeyIsWritten(key, team);
    }
    if IsTenantKey(other, team) {
      TenantKeyIsWritten(other, team);
    }
  }

  lemma TenantsCollideExactly(key: string, other: string, team: string)
    requires IsTenantKey(key, team) && IsTenantKey(other, team)
    requires !IsUnderPreview(key, team) && !IsUnderPreview(other, team)
    ensures RewriteKey(key, team) == RewriteKey(other, team)
       <==> || key == other
            || (EndsAtService(key, team) && EndsAtService(other, team) && StripData(key).0 == StripData(other).0
                && ServiceOf(Rest(key, team)) == ServiceOf(Rest(other, team)))
  {
    RewriteKeyShape(key, team);
    RewriteKeyShape(other, team);
    TenantKeyIsWritten(key, team);
    TenantKeyIsWritten(other, team);
    TenantKeyReads(StripData(key).0, team, PreviewRest(Rest(key, team)));
    TenantKeyReads(StripData(other).0, team, PreviewRest(Rest(other, team)));
    RestsCollideExactly(Rest(key, team), Rest(other, team));
  }

  /** Two keys of one service, different and rewritten to one. */
  lemma TrailingSlashCollides(team: string, service: string) returns (key: string, other: string)
    requires '/' !in service
    ensures key != other && !IsUnderPreview(key, team) && !IsUnderPreview(other, team)
    ensures RewriteKey(key, team).Some? && RewriteKey(key, team) == RewriteKey(other, team)
  {
    key, other := TenantKey("", team, service), TenantKey("", team, service + ['/'] + "");
    TenantKeyReads("", team, service);
    TenantKeyReads("", team, service + ['/'] + "");
    ServiceIsRead(service, "");
    RewriteKeyShape(key, team);
    RewriteKeyShape(other, team);
    TenantsCollideExactly(key, other, team);
    assert |other| > |key|;
  }

  // ---------------------------------------------------------------- one secret

  type Fields = map<string, Json>

  /** str(value), None when no such text is a Vault path: a number, a list, a mapping, None, True, False. */
  function KeyText(value: Json): Option<string> {
    if value.Str? then Some(value.s) else None
  }

  predicate HoldsAKey(item: Json) {
    item.Obj? && "remoteKey" in item.fields
  }

  function RewriteItem(item: Json, team: string): Option<Json> {
    if !HoldsAKey(item) then Some(item)
    else match KeyText(item.fields["remoteKey"])
      case None => None
      case Some(key) =>
        match RewriteKey(key, team)
        case None => None
        case Some(next) => Some(Obj(item.fields["remoteKey" := Str(next)]))
  }

  function RewriteItems(items: seq<Json>, team: string): Option<seq<Json>> {
    if forall i :: 0 <= i < |items| ==> RewriteItem(items[i], team).Some?
    then Some(seq(|items|, i requires 0 <= i < |items| => RewriteItem(items[i], team).value)) else None
  }

  /** The items with a key whose path is under `root`. */
  predicate HasKeyUnder(items: seq<Json>, root: string) {
    exists i :: 0 <= i < |items| && KeyIsUnder(items[i], root)
  }

  predicate KeyIsUnder(item: Json, root: string) {
    && HoldsAKey(item) && item.fields["remoteKey"].Str? && item.fields["remoteKey"].s != ""
    && root <= StripData(item.fields["remoteKey"].s).1
  }

  /** _force_tenant_store() */
  function Forced(fields: Fields): Fields {
    fields["store" := Str("tenant-store")]["storeKind" := Str("SecretStore")]
  }

  predicate IsForced(fields: Fields) {
    && "store" in fields && fields["store"] == Str("tenant-store")
    && "storeKind" in fields && fields["storeKind"] == Str("SecretStore")
  }

  function DataOf(fields: Fields): seq<Json> {
    if "data" in fields && fields["data"].Arr? then fields["data"].items else []
  }

  function WithData(fields: Fields, items: seq<Json>): Fields {
    if "data" in fields && fields["data"].Arr? then fields["data" := Arr(items)] else fields
  }

  /** What is done to an ExternalSecret; None when the deploy is refused. */
  function RewriteSecret(fields: Fields, team: string): Option<Fields> {
    match RewriteItems(DataOf(fields), team)
    case None => None
    case Some(items) =>
      if HasKeyUnder(items, PLATFORM) && HasKeyUnder(items, TEAMS) then None
      else if HasKeyUnder(items, TEAMS) then Some(Forced(WithData(fields, items)))
      else Some(WithData(fields, items))
  }

  /** _rewrite_data_list() */
  method RewriteDataList(items: seq<Json>, team: string) returns (r: Option<seq<Json>>)
    ensures r == RewriteItems(items, team)
  {
    var out := items;
    for i := 0 to |items|
      invariant |out| == |items|
      invariant forall j :: 0 <= j < i ==> RewriteItem(items[j], team) == Some(out[j])
      invariant forall j :: i <= j < |items| ==> out[j] == items[j]
    {
      var next := RewriteItem(out[i], team);
      if next.None? {
        return None;
      }
      out := out[i := next.value];
    }
    assert out == RewriteItems(items, team).value;
    r := Some(out);
  }

  /** _classify_keys(): whether there are platform keys, and whether there are team keys. */
  method ClassifyKeys(items: seq<Json>) returns (hasPlatform: bool, hasTeam: bool)
    ensures hasPlatform == HasKeyUnder(items, PLATFORM) && hasTeam == HasKeyUnder(items, TEAMS)
  {
    hasPlatform, hasTeam := false, false;
    for i := 0 to |items|
      invariant hasPlatform == exists j :: 0 <= j < i && KeyIsUnder(items[j], PLATFORM)
      invariant hasTeam == exists j :: 0 <= j < i && KeyIsUnder(items[j], TEAMS)
    {
      if KeyIsUnder(items[i], PLATFORM) {
        hasPlatform := true;
      } else if KeyIsUnder(items[i], TEAMS) {
        hasTeam := true;
      }
      NotUnderBoth(items[i]);
    }
  }

  lemma NotUnderBoth(item: Json)
    ensures !(KeyIsUnder(item, PLATFORM) && KeyIsUnder(item, TEAMS))
  {
    if KeyIsUnder(item, PLATFORM) {
      assert StripData(item.fields["remoteKey"].s).1[0] == PLATFORM[0] != TEAMS[0];
    }
  }

  /** One secret of rewrite_values(), its fields changed in the order of the script. */
  method RewriteOneSecret(fields: Fields, team: string) returns (r: Option<Fields>)
    ensures r == RewriteSecret(fields, team)
  {
    var items := RewriteDataList(DataOf(fields), team);
    if items.None? {
      return None;
    }
    var out := WithData(fields, items.value);
    var hasPlatform, hasTeam := ClassifyKeys(items.value);
    if hasPlatform && hasTeam {
      return None;
    }
    if hasTeam {
      out := out["store" := Str("tenant-store")];
      out := out["storeKind" := Str("SecretStore")];
    }
    r := Some(out);
  }

  lemma ItemIsSettled(item: Json, team: string)
    requires RewriteItem(item, team).Some?
    ensures RewriteItem(RewriteItem(item, team).value, team) == RewriteItem(item, team)
  {
    if HoldsAKey(item) {
      var key := item.fields["remoteKey"].s;
      RewriteKeyIsIdempotent(key, team);
      var next := Str(RewriteKey(key, team).value);
      assert item.fields["remoteKey" := next]["remoteKey" := next] == item.fields["remoteKey" := next];
    }
  }

  lemma ItemsAreSettled(items: seq<Json>, team: string)
    requires RewriteItems(items, team).Some?
    ensures RewriteItems(RewriteItems(items, team).value, team) == RewriteItems(items, team)
  {
    var out := RewriteItems(items, team).value;
    forall i | 0 <= i < |items| ensures RewriteItem(out[i], team) == Some(out[i]) {
      ItemIsSettled(items[i], team);
    }
    assert RewriteItems(out, team).value == out;
  }

  lemma SecretReads(fields: Fields, team: string) returns (items: seq<Json>)
    requires RewriteSecret(fields, team).Some?
    ensures RewriteItems(DataOf(fields), team) == Some(items)
    ensures var next := RewriteSecret(fields, team).value;
      && DataOf(next) == items && WithData(next, items) == next
      && (HasKeyUnder(items, TEAMS) ==> IsForced(next) && Forced(next) == next)
  {
    items := RewriteItems(DataOf(fields), team).value;
    DataIsReplaced(fields, items);
    ForcingTwiceIsForcingOnce(WithData(fields, items), items);
  }

  lemma DataIsReplaced(fields: Fields, items: seq<Json>)
    requires |items| == |DataOf(fields)|
    ensures DataOf(WithData(fields, items)) == items
    ensures WithData(WithData(fields, items), items) == WithData(fields, items)
  {
    if "data" in fields && fields["data"].Arr? {
      assert fields["data" := Arr(items)]["data" := Arr(items)] == fields["data" := Arr(items)];
    }
  }

  lemma ForcingTwiceIsForcingOnce(fields: Fields, items: seq<Json>)
    requires DataOf(fields) == items && WithData(fields, items) == fields
    ensures IsForced(Forced(fields)) && Forced(Forced(fields)) == Forced(fields)
    ensures DataOf(Forced(fields)) == items && WithData(Forced(fields), items) == Forced(fields)
  {
    var next := Forced(fields);
    assert "data" != "store" && "data" != "storeKind" && "store" != "storeKind";
    assert next["store" := Str("tenant-store")] == next;
    assert next["storeKind" := Str("SecretStore")] == next;
    assert "data" in next ==> next["data" := next["data"]] == next;
  }

  /** A rewritten secret is rewritten to itself. */
  lemma SecretIsSettled(fields: Fields, team: string)
    requires RewriteSecret(fields, team).Some?
    ensures RewriteSecret(RewriteSecret(fields, team).value, team) == RewriteSecret(fields, team)
  {
    var items := SecretReads(fields, team);
    ItemsAreSettled(DataOf(fields), team);
  }

  // ---------------------------------------------------------------- the values of a service

  const EXTERNAL := "externalSecret"
  const EXTRAS := "extraExternalSecrets"
  const DB := "dbSecret"

  function RewriteEntry(entry: Json, team: string): Option<Json> {
    if !entry.Obj? then Some(entry)
    else match RewriteSecret(entry.fields, team)
      case None => None
      case Some(next) => Some(Obj(next))
  }

  function RewriteExtras(entries: Fields, team: string): Option<Fields> {
    if forall n :: n in entries ==> RewriteEntry(entries[n], team).Some?
    then Some(map n | n in entries :: RewriteEntry(entries[n], team).value) else None
  }

  function RewriteDb(fields: Fields, team: string): Option<Fields> {
    if !("vaultPath" in fields && Truthy(fields["vaultPath"])) then Some(fields)
    else match KeyText(fields["vaultPath"])
      case None => None
      case Some(key) =>
        match RewriteKey(key, team)
        case None => None
        case Some(next) =>
          var moved := fields["vaultPath" := Str(next)];
          Some(if TEAMS <= StripData(next).1 then Forced(moved) else moved)
  }

  /** What becomes of one top-level part of the values. */
  function RewritePart(name: string, value: Json, team: string): Option<Json> {
    if name == EXTERNAL then RewriteEntry(value, team)
    else if name == EXTRAS && value.Obj? then
      match RewriteExtras(value.fields, team)
      case None => None
      case Some(next) => Some(Obj(next))
    else if name == DB && value.Obj? then
      match RewriteDb(value.fields, team)
      case None => None
      case Some(next) => Some(Obj(next))
    else Some(value)
  }

  function RewriteValues(values: Fields, team: string): Option<Fields> {
    if forall n :: n in values ==> RewritePart(n, values[n], team).Some?
    then Some(map n | n in values :: RewritePart(n, values[n], team).value) else None
  }

  method RewriteAllExtras(entries: Fields, team: string) returns (r: Option<Fields>)
    ensures r == RewriteExtras(entries, team)
  {
    var out, left := entries, entries.Keys;
    while left != {}
      invariant left <= entries.Keys == out.Keys
      invariant forall n :: n in left ==> out[n] == entries[n]
      invariant forall n :: n in entries && n !in left ==> RewriteEntry(entries[n], team) == Some(out[n])
      decreases |left|
    {
      var n :| n in left;
      if out[n].Obj? {
        var next := RewriteOneSecret(out[n].fields, team);
        if next.None? {
          assert RewriteEntry(entries[n], team).None?;
          return None;
        }
        out := out[n := Obj(next.value)];
      }
      left := left - {n};
    }
    assert out == RewriteExtras(entries, team).value;
    r := Some(out);
  }

  method RewriteDatabase(fields: Fields, team: string) returns (r: Option<Fields>)
    ensures r == RewriteDb(fields, team)
  {
    if !("vaultPath" in fields && Truthy(fields["vaultPath"])) {
      return Some(fields);
    }
    var key := KeyText(fields["vaultPath"]);
    if key.None? {
      return None;
    }
    var next := RewriteKey(key.value, team);
    if next.None? {
      return None;
    }
    var out := fields["vaultPath" := Str(next.value)];
    if TEAMS <= StripData(next.value).1 {
      out := out["store" := Str("tenant-store")];
      out := out["storeKind" := Str("SecretStore")];
    }
    r := Some(out);
  }

  /** rewrite_values() for one of its three names. */
  method RewriteOnePart(values: Fields, name: string, team: string) returns (r: Option<Fields>)
    ensures r.Some? <==> (name in values ==> RewritePart(name, values[name], team).Some?)
    ensures r.Some? ==> r.value.Keys == values.Keys && r.value - {name} == values - {name}
    ensures r.Some? && name in values ==> Some(r.value[name]) == RewritePart(name, values[name], team)
  {
    if !(name in values && values[name].Obj?) {
      return Some(values);
    }
    var next := Some(values[name].fields);
    if name == EXTERNAL {
      next := RewriteOneSecret(values[name].fields, team);
    } else if name == EXTRAS {
      next := RewriteAllExtras(values[name].fields, team);
    } else if name == DB {
      next := RewriteDatabase(values[name].fields, team);
    }
    r := if next.None? then None else Some(values[name := Obj(next.value)]);
  }

  /** rewrite_values() */
  method RewriteServiceValues(values: Fields, team: string) returns (r: Option<Fields>)
    ensures r == RewriteValues(values, team)
  {
    var first := RewriteOnePart(values, EXTERNAL, team);
    if first.None? {
      return None;
    }
    assert EXTRAS in values ==> first.value[EXTRAS] == (first.value - {EXTERNAL})[EXTRAS] == values[EXTRAS];
    var second := RewriteOnePart(first.value, EXTRAS, team);
    if second.None? {
      return None;
    }
    r := RewriteOnePart(second.value, DB, team);
    OtherPartsStay(values, first.value, second.value);
    if r.Some? {
      Assembled(values, first.value, second.value, r.value, team);
    }
  }

  lemma OtherPartsStay(values: Fields, first: Fields, second: Fields)
    requires first.Keys == values.Keys && first - {EXTERNAL} == values - {EXTERNAL}
    requires second.Keys == first.Keys && second - {EXTRAS} == first - {EXTRAS}
    ensures DB in values ==> second[DB] == values[DB]
  {
    assert DB in values ==> second[DB] == (second - {EXTRAS})[DB] == (first - {EXTERNAL})[DB];
  }

  lemma Assembled(values: Fields, first: Fields, second: Fields, out: Fields, team: string)
    requires first.Keys == second.Keys == out.Keys == values.Keys
    requires first - {EXTERNAL} == values - {EXTERNAL} && second - {EXTRAS} == first - {EXTRAS} && out - {DB} == second - {DB}
    requires EXTERNAL in values ==> RewritePart(EXTERNAL, values[EXTERNAL], team) == Some(first[EXTERNAL])
    requires EXTRAS in values ==> RewritePart(EXTRAS, values[EXTRAS], team) == Some(second[EXTRAS])
    requires DB in values ==> RewritePart(DB, values[DB], team) == Some(out[DB])
    ensures RewriteValues(values, team) == Some(out)
  {
    forall n | n in values ensures RewritePart(n, values[n], team) == Some(out[n]) {
      assert n != DB ==> (out - {DB})[n] == second[n];
      assert n != EXTRAS ==> (second - {EXTRAS})[n] == first[n];
      assert n != EXTERNAL ==> (first - {EXTERNAL})[n] == values[n];
    }
    assert out == RewriteValues(values, team).value;
  }

  // ---------------------------------------------------------------- twice is once

  lemma ExtrasAreSettled(entries: Fields, team: string)
    requires RewriteExtras(entries, team).Some?
    ensures RewriteExtras(RewriteExtras(entries, team).value, team) == RewriteExtras(entries, team)
  {
    var out := RewriteExtras(entries, team).value;
    forall n | n in entries ensures RewriteEntry(out[n], team) == Some(out[n]) {
      if entries[n].Obj? {
        SecretIsSettled(entries[n].fields, team);
      }
    }
    assert RewriteExtras(out, team).value == out;
  }

  lemma DbReads(fields: Fields, team: string) returns (next: string)
    requires RewriteDb(fields, team).Some? && "vaultPath" in fields && Truthy(fields["vaultPath"])
    ensures RewriteKey(fields["vaultPath"].s, team) == Some(next)
    ensures var out := RewriteDb(fields, team).value;
      && "vaultPath" in out && out["vaultPath"] == Str(next) && out["vaultPath" := Str(next)] == out
      && (TEAMS <= StripData(next).1 ==> IsForced(out) && Forced(out) == out)
  {
    next := RewriteKey(fields["vaultPath"].s, team).value;
    var out := RewriteDb(fields, team).value;
    assert "vaultPath" != "store" && "vaultPath" != "storeKind" && "store" != "storeKind";
    assert out["vaultPath" := Str(next)] == out;
    assert TEAMS <= StripData(next).1 ==> Forced(out) == out;
  }

  lemma DbIsSettled(fields: Fields, team: string)
    requires RewriteDb(fields, team).Some?
    ensures RewriteDb(RewriteDb(fields, team).value, team) == RewriteDb(fields, team)
  {
    if "vaultPath" in fields && Truthy(fields["vaultPath"]) {
      var next := DbReads(fields, team);
      RewriteKeyIsIdempotent(fields["vaultPath"].s, team);
    }
  }

  lemma PartIsSettled(name: string, value: Json, team: string)
    requires RewritePart(name, value, team).Some?
    ensures RewritePart(name, RewritePart(name, value, team).value, team) == RewritePart(name, value, team)
  {
    if value.Obj? {
      if name == EXTERNAL {
        SecretIsSettled(value.fields, team);
      } else if name == EXTRAS {
        ExtrasAreSettled(value.fields, team);
      } else if name == DB {
        DbIsSettled(value.fields, team);
      }
    }
  }

  /** Rewriting rewritten values changes nothing. */
  lemma RewritingTwiceIsRewritingOnce(values: Fields, team: string)
    requires RewriteValues(values, team).Some?
    ensures RewriteValues(RewriteValues(values, team).value, team) == RewriteValues(values, team)
  {
    var out := RewriteValues(values, team).value;
    forall n | n in values ensures RewritePart(n, out[n], team) == Some(out[n]) {
      PartIsSettled(n, values[n], team);
    }
    assert RewriteValues(out, team).value == out;
  }

  // ---------------------------------------------------------------- what a rewrite changes

  /** Nothing but the key of an item. */
  predicate SameButKey(before: Json, after: Json) {
    if HoldsAKey(before)
    then after.Obj? && after.fields.Keys == before.fields.Keys && after.fields - {"remoteKey"} == before.fields - {"remoteKey"}
    else after == before
  }

  /** Nothing but the keys of the items, and the store of a secret that holds a team key. */
  predicate SameButKeysAndStore(before: Fields, after: Fields) {
    && after - {"data", "store", "storeKind"} == before - {"data", "store", "storeKind"}
    && ("data" in before <==> "data" in after)
    && ("data" in before && !before["data"].Arr? ==> after["data"] == before["data"])
    && |DataOf(after)| == |DataOf(before)|
    && (forall i :: 0 <= i < |DataOf(before)| ==> SameButKey(DataOf(before)[i], DataOf(after)[i]))
    && (if HasKeyUnder(DataOf(after), TEAMS) then IsForced(after) else after - {"data"} == before - {"data"})
  }

  /** Nothing but the path, and the store when the path is a team's. */
  predicate SameButPathAndStore(before: Fields, after: Fields) {
    && after - {"vaultPath", "store", "storeKind"} == before - {"vaultPath", "store", "storeKind"}
    && ("vaultPath" in before <==> "vaultPath" in after)
    && (if "vaultPath" in after && after["vaultPath"].Str? && TEAMS <= StripData(after["vaultPath"].s).1
        then IsForced(after) else after - {"vaultPath"} == before - {"vaultPath"})
  }

  lemma SecretFrame(fields: Fields, team: string)
    requires RewriteSecret(fields, team).Some?
    ensures SameButKeysAndStore(fields, RewriteSecret(fields, team).value)
  {
    var items := SecretReads(fields, team);
    var next := RewriteSecret(fields, team).value;
    assert "data" != "store" && "data" != "storeKind";
    forall i | 0 <= i < |items| ensures SameButKey(DataOf(fields)[i], items[i]) {
      ItemFrame(DataOf(fields)[i], team);
    }
  }

  lemma ItemFrame(item: Json, team: string)
    requires RewriteItem(item, team).Some?
    ensures SameButKey(item, RewriteItem(item, team).value)
  {
  }

  lemma DbFrame(fields: Fields, team: string)
    requires RewriteDb(fields, team).Some?
    ensures SameButPathAndStore(fields, RewriteDb(fields, team).value)
  {
    assert "vaultPath" != "store" && "vaultPath" != "storeKind";
  }

  /**
   A rewrite changes keys and paths and, for a secret that holds a team key, its store:
   that one ends on tenant-store. Every other part of the values stays as it is.
   */
  lemma RewriteChangesOnlyKeysAndStores(values: Fields, team: string)
    requires RewriteValues(values, team).Some?
    ensures var out := RewriteValues(values, team).value;
      && out.Keys == values.Keys
      && (forall n :: n in values && (n !in {EXTERNAL, EXTRAS, DB} || !values[n].Obj?) ==> out[n] == values[n])
      && (EXTERNAL in values && values[EXTERNAL].Obj? ==>
            out[EXTERNAL].Obj? && SameButKeysAndStore(values[EXTERNAL].fields, out[EXTERNAL].fields))
      && (DB in values && values[DB].Obj? ==> out[DB].Obj? && SameButPathAndStore(values[DB].fields, out[DB].fields))
      && (EXTRAS in values && values[EXTRAS].Obj? ==>
            out[EXTRAS].Obj? && ExtrasSameButKeysAndStore(values[EXTRAS].fields, out[EXTRAS].fields))
  {
    if EXTERNAL in values && values[EXTERNAL].Obj? {
      assert RewritePart(EXTERNAL, values[EXTERNAL], team).Some?;
      SecretFrame(values[EXTERNAL].fields, team);
    }
    if DB in values && values[DB].Obj? {
      assert RewritePart(DB, values[DB], team).Some?;
      DbFrame(values[DB].fields, team);
    }
    if EXTRAS in values && values[EXTRAS].Obj? {
      assert RewritePart(EXTRAS, values[EXTRAS], team).Some?;
      ExtrasFrame(values[EXTRAS].fields, team);
    }
  }

  predicate ExtrasSameButKeysAndStore(before: Fields, after: Fields) {
    && after.Keys == before.Keys
    && (forall n :: n in before && !before[n].Obj? ==> after[n] == before[n])
    && (forall n :: n in before && before[n].Obj? ==>
          after[n].Obj? && SameButKeysAndStore(before[n].fields, after[n].fields))
  }

  lemma ExtrasFrame(entries: Fields, team: string)
    requires RewriteExtras(entries, team).Some?
    ensures ExtrasSameButKeysAndStore(entries, RewriteExtras(entries, team).value)
  {
    forall n | n in entries && entries[n].Obj?
      ensures RewriteEntry(entries[n], team).value.Obj?
           && SameButKeysAndStore(entries[n].fields, RewriteEntry(entries[n], team).value.fields)
    {
      SecretFrame(entries[n].fields, team);
    }
  }

  // ---------------------------------------------------------------- the last check

  predicate Contains(s: string, part: string) {
    exists i :: 0 <= i <= |s| && part <= s[i..]
  }

  predicate EndsWith(s: string, part: string) {
    |part| <= |s| && s[|s| - |part|..] == part
  }

  /** What _assert_no_prod_team_paths() lets a string be. */
  predicate PassesWalk(text: string, team: string) {
    var path := StripData(text).1;
    TeamPrefix(team) <= path ==> Contains(path, "/preview/") || EndsWith(path, "/preview")
  }

  lemma PreviewPathPasses(head: string, remainder: string)
    requires IsPreview(remainder)
    ensures var path := head + (['/'] + remainder); Contains(path, "/preview/") || EndsWith(path, "/preview")
  {
    var path := head + (['/'] + remainder);
    assert path[|head|..] == ['/'] + remainder;
    if remainder == "preview" {
      assert ['/'] + "preview" == "/preview";
    } else {
      assert ['/'] + "preview/" == "/preview/" && "/preview/" <= path[|head|..];
    }
  }

  /** A rewritten key passes the last check. */
  lemma RewrittenKeyPasses(key: string, team: string)
    requires RewriteKey(key, team).Some?
    ensures PassesWalk(RewriteKey(key, team).value, team)
  {
    var next := RewriteKey(key, team).value;
    RewriteKeyShape(key, team);
    if IsTenantKey(next, team) {
      if IsPlatformKey(key) {
        TenantKeyIsWritten(key, team);
      } else {
        RewrittenReadsPreview(key, team);
        TenantPathPasses(next, team);
      }
    }
  }

  lemma TenantPathPasses(key: string, team: string)
    requires IsUnderPreview(key, team)
    ensures PassesWalk(key, team)
  {
    var rest := Rest(key, team);
    RestIsPutTogether(rest);
    PreviewPathPasses(TeamPrefix(team) + ServiceOf(rest), RemainderOf(rest));
    Regroup(ServiceOf(rest), ['/'], RemainderOf(rest));
    Regroup(TeamPrefix(team), ServiceOf(rest), ['/'] + RemainderOf(rest));
    AfterPrefix(TeamPrefix(team), StripData(key).1);
  }

  /** Every key of a rewritten secret passes it. */
  lemma RewrittenSecretPasses(fields: Fields, team: string, i: nat)
    requires RewriteSecret(fields, team).Some? && i < |DataOf(RewriteSecret(fields, team).value)|
    requires HoldsAKey(DataOf(RewriteSecret(fields, team).value)[i])
    ensures var key := DataOf(RewriteSecret(fields, team).value)[i].fields["remoteKey"];
      key.Str? && PassesWalk(key.s, team)
  {
    var items := SecretReads(fields, team);
    var item := DataOf(fields)[i];
    assert RewriteItem(item, team) == Some(items[i]);
    assert HoldsAKey(item);
    RewrittenKeyPasses(item.fields["remoteKey"].s, team);
  }

  lemma RewrittenDbPasses(fields: Fields, team: string)
    requires RewriteDb(fields, team).Some? && "vaultPath" in fields && Truthy(fields["vaultPath"])
    ensures var path := RewriteDb(fields, team).value["vaultPath"]; path.Str? && PassesWalk(path.s, team)
  {
    assert "vaultPath" != "store" && "vaultPath" != "storeKind";
    RewrittenKeyPasses(fields["vaultPath"].s, team);
  }

  /** Every key of the secret is a string that passes the last check. */
  predicate KeysPass(fields: Fields, team: string) {
    forall i :: 0 <= i < |DataOf(fields)| && HoldsAKey(DataOf(fields)[i]) ==>
      var key := DataOf(fields)[i].fields["remoteKey"]; key.Str? && PassesWalk(key.s, team)
  }

  predicate PathPasses(fields: Fields, team: string) {
    "vaultPath" in fields && Truthy(fields["vaultPath"]) ==>
      fields["vaultPath"].Str? && PassesWalk(fields["vaultPath"].s, team)
  }

  /** Every key and path in the values that the script rewrites passes the last check. */
  predicate RewrittenPlacesPass(values: Fields, team: string) {
    && (EXTERNAL in values && values[EXTERNAL].Obj? ==> KeysPass(values[EXTERNAL].fields, team))
    && (EXTRAS in values && values[EXTRAS].Obj? ==>
          forall n :: n in values[EXTRAS].fields && values[EXTRAS].fields[n].Obj? ==>
            KeysPass(values[EXTRAS].fields[n].fields, team))
    && (DB in values && values[DB].Obj? ==> PathPasses(values[DB].fields, team))
  }

  lemma RewrittenKeysPass(fields: Fields, team: string)
    requires RewriteSecret(fields, team).Some?
    ensures KeysPass(RewriteSecret(fields, team).value, team)
  {
    var next := RewriteSecret(fields, team).value;
    forall i | 0 <= i < |DataOf(next)| && HoldsAKey(DataOf(next)[i])
      ensures var key := DataOf(next)[i].fields["remoteKey"]; key.Str? && PassesWalk(key.s, team)
    {
      RewrittenSecretPasses(fields, team, i);
    }
  }

  lemma RewrittenPathPasses(fields: Fields, team: string)
    requires RewriteDb(fields, team).Some?
    ensures PathPasses(RewriteDb(fields, team).value, team)
  {
    if "vaultPath" in fields && Truthy(fields["vaultPath"]) {
      RewrittenDbPasses(fields, team);
    }
  }

  /** A successful rewrite passes the last check at every place that was rewritten. */
  lemma RewrittenValuesPass(values: Fields, team: string)
    requires RewriteValues(values, team).Some?
    ensures RewrittenPlacesPass(RewriteValues(values, team).value, team)
  {
    var out := RewriteValues(values, team).value;
    if EXTERNAL in values && values[EXTERNAL].Obj? {
      assert RewritePart(EXTERNAL, values[EXTERNAL], team) == Some(out[EXTERNAL]);
      RewrittenKeysPass(values[EXTERNAL].fields, team);
    }
    if EXTRAS in values && values[EXTRAS].Obj? {
      assert RewritePart(EXTRAS, values[EXTRAS], team) == Some(out[EXTRAS]);
      forall n | n in values[EXTRAS].fields && out[EXTRAS].fields[n].Obj?
        ensures KeysPass(out[EXTRAS].fields[n].fields, team)
      {
        RewrittenKeysPass(values[EXTRAS].fields[n].fields, team);
      }
    }
    if DB in values && values[DB].Obj? {
      assert RewritePart(DB, values[DB], team) == Some(out[DB]);
      RewrittenPathPasses(values[DB].fields, team);
    }
  }
}
