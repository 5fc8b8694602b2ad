/**
 Which values platform-gitops/argo-workflows/scripts/rewrite_preview_values.py accepts, and
 what it makes of every key, said of the keys as they are written.
 */
module PreviewChecks {
  import opened Wrappers
  import opened JsonDocs
  import opened Text
  import opened Seqs
  import opened PreviewRewrite

  // ---------------------------------------------------------------- keys as they are written

  /** A path, with or without secret/data/ before it. */
  predicate Addresses(key: string, path: string) {
    key == path || key == "secret/data/" + path
  }

  /** No key at all, or one of the platform's. */
  ghost predicate IsPlatforms(key: string) {
    key == "" || exists rest :: Addresses(key, "platform/" + rest)
  }

  /** A key of the team. */
  ghost predicate IsTeams(key: string, team: string) {
    exists rest :: Addresses(key, "teams/" + team + "/" + rest)
  }

  lemma DataIsStripped(key: string, path: string)
    requires path != "" && path[0] != 's'
    ensures Addresses(key, path) <==> StripData(key).1 == path && (key == path || key == DATA_PREFIX + path)
  {
    assert DATA_PREFIX[0] == 's';
    if key == DATA_PREFIX + path {
      AfterFirst(DATA_PREFIX, path);
    }
  }

  lemma StrippedIsAddressed(key: string)
    ensures Addresses(key, StripData(key).1)
  {
    if DATA_PREFIX <= key {
      AfterPrefix(DATA_PREFIX, key);
    }
  }

  lemma PlatformsExactly(key: string)
    ensures IsPlatforms(key) <==> IsPlatformKey(key)
  {
    StrippedIsAddressed(key);
    if IsPlatformKey(key) && key != "" {
      var path := StripData(key).1;
      AfterPrefix(PLATFORM, path);
      assert Addresses(key, "platform/" + path[|PLATFORM|..]);
    }
    if key != "" && IsPlatforms(key) {
      var rest :| Addresses(key, "platform/" + rest);
      assert ("platform/" + rest)[0] == PLATFORM[0];
      DataIsStripped(key, "platform/" + rest);
    }
  }

  lemma TeamsExactly(key: string, team: string)
    ensures IsTeams(key, team) <==> IsTenantKey(key, team)
    ensures forall rest :: Addresses(key, "teams/" + team + "/" + rest) ==> IsTenantKey(key, team) && Rest(key, team) == rest
  {
    StrippedIsAddressed(key);
    if IsTenantKey(key, team) {
      AfterPrefix(TeamPrefix(team), StripData(key).1);
      assert Addresses(key, "teams/" + team + "/" + Rest(key, team));
    }
    forall rest | Addresses(key, "teams/" + team + "/" + rest) ensures IsTenantKey(key, team) && Rest(key, team) == rest {
      var path := "teams/" + team + "/" + rest;
      assert path[0] == TEAMS[0];
      DataIsStripped(key, path);
      AfterFirst(TeamPrefix(team), rest);
    }
  }

  // ---------------------------------------------------------------- one key

  /** What stands behind the team, and what is to stand there. */
  ghost predicate MovesRest(rest: string, next: string) {
    || ('/' !in rest && next == rest + "/preview")
    || (exists service, remainder ::
          rest == service + "/" + remainder && '/' !in service
          && (if remainder == "preview" || "preview/" <= remainder then next == rest
              else if remainder == "" then next == service + "/preview"
              else next == service + "/preview/" + remainder))
  }

  /** A platform key stays; a key of the team moves under preview, below its service. */
  ghost predicate Moves(key: string, next: string, team: string) {
    || (IsPlatforms(key) && next == key)
    || (exists rest, moved ::
          && MovesRest(rest, moved)
          && ((key == "teams/" + team + "/" + rest && next == "teams/" + team + "/" + moved)
              || (key == "secret/data/" + ("teams/" + team + "/" + rest)
                  && next == "secret/data/" + ("teams/" + team + "/" + moved))))
  }

  lemma MovesRestExactly(rest: string, next: string)
    ensures MovesRest(rest, next) <==> next == PreviewRest(rest)
  {
    RestIsPutTogether(rest);
    var (service, remainder) := (ServiceOf(rest), RemainderOf(rest));
    PreviewRestIs(service, remainder);
    if Index(rest, '/') < |rest| {
      assert rest == service + "/" + remainder;
      forall s, r | rest == s + "/" + r && '/' !in s ensures s == service && r == remainder {
        ServiceIsRead(s, r);
      }
      assert '/' in rest;
    } else {
      forall s: string, r: string ensures rest != s + "/" + r {
        SlashIsIn(s, r);
      }
    }
  }

  lemma SlashIsIn(s: string, r: string)
    ensures '/' in s + "/" + r
  {
    assert (s + "/" + r)[|s|] == '/';
  }

  lemma PreviewRestIs(service: string, remainder: string)
    ensures service + ['/'] + Below(remainder)
         == if remainder == "" then service + "/preview" else service + "/preview/" + remainder
  {
    assert ['/'] + "preview" == "/preview";
    Regroup(service, ['/'], "preview");
    if remainder != "" {
      BelowIsPreview(remainder);
      assert ['/'] + "preview/" == "/preview/";
      Regroup(['/'], "preview/", remainder);
      Regroup(service, ['/'], "preview/" + remainder);
      Regroup(service, "/preview/", remainder);
    }
  }

  /** A key is accepted and becomes `next` exactly when it moves there. */
  lemma KeyExactly(key: string, next: string, team: string)
    ensures RewriteKey(key, team) == Some(next) <==> Moves(key, next, team)
  {
    RewriteKeyShape(key, team);
    PlatformsExactly(key);
    TeamsExactly(key, team);
    if IsTenantKey(key, team) {
      TenantKeyIsWritten(key, team);
      var rest := Rest(key, team);
      MovesRestExactly(rest, PreviewRest(rest));
      TenantKeyIsSpelled(StripData(key).0, team, rest);
      TenantKeyIsSpelled(StripData(key).0, team, PreviewRest(rest));
    }
    forall rest, moved | MovesRest(rest, moved) ensures moved == PreviewRest(rest) {
      MovesRestExactly(rest, moved);
    }
  }

  lemma TenantKeyIsSpelled(prefix: string, team: string, rest: string)
    requires prefix == "" || prefix == DATA_PREFIX
    ensures TenantKey(prefix, team, rest)
         == if prefix == "" then "teams/" + team + "/" + rest else "secret/data/" + ("teams/" + team + "/" + rest)
  {
    NothingAdded(TeamPrefix(team) + rest);
  }

  // ---------------------------------------------------------------- one secret

  /** The item holds this key. */
  predicate Holds(item: Json, key: Json) {
    item.Obj? && "remoteKey" in item.fields && item.fields["remoteKey"] == key
  }

  /** The list of items, if there is one. */
  predicate Lists(fields: Fields, items: seq<Json>) {
    if "data" in fields && fields["data"].Arr? then items == fields["data"].items else items == []
  }

  ghost predicate HoldsPlatforms(items: seq<Json>) {
    exists i, key :: 0 <= i < |items| && Holds(items[i], Str(key)) && key != "" && IsPlatforms(key)
  }

  ghost predicate HoldsTeams(items: seq<Json>, team: string) {
    exists i, key :: 0 <= i < |items| && Holds(items[i], Str(key)) && IsTeams(key, team)
  }

  /** Every key is empty, the platform's or the team's; and not both kinds in one secret. */
  ghost predicate IsAccepted(items: seq<Json>, team: string) {
    && (forall i, value :: 0 <= i < |items| && Holds(items[i], value) ==>
          value.Str? && (IsPlatforms(value.s) || IsTeams(value.s, team)))
    && !(HoldsPlatforms(items) && HoldsTeams(items, team))
  }

  lemma ItemExactly(item: Json, team: string)
    ensures RewriteItem(item, team).Some? <==>
      forall value :: Holds(item, value) ==> value.Str? && (IsPlatforms(value.s) || IsTeams(value.s, team))
    ensures RewriteItem(item, team).Some? ==>
              (forall key :: Holds(item, Str(key)) ==>
                 exists next :: Moves(key, next, team)
                                && RewriteItem(item, team) == Some(Obj(item.fields["remoteKey" := Str(next)])))
  {
    if HoldsAKey(item) {
      var value := item.fields["remoteKey"];
      assert Holds(item, value);
      if value.Str? {
        RewriteKeyShape(value.s, team);
        PlatformsExactly(value.s);
        TeamsExactly(value.s, team);
        if RewriteKey(value.s, team).Some? {
          KeyExactly(value.s, RewriteKey(value.s, team).value, team);
        }
      }
    }
  }

  /** The kind of a key does not change. */
  lemma KindStays(item: Json, team: string)
    requires RewriteItem(item, team).Some?
    ensures KeyIsUnder(RewriteItem(item, team).value, PLATFORM)
       <==> exists key :: Holds(item, Str(key)) && key != "" && IsPlatforms(key)
    ensures KeyIsUnder(RewriteItem(item, team).value, TEAMS) <==> exists key :: Holds(item, Str(key)) && IsTeams(key, team)
  {
    if HoldsAKey(item) {
      var key := item.fields["remoteKey"].s;
      assert Holds(item, Str(key));
      RewriteKeyShape(key, team);
      PlatformsExactly(key);
      TeamsExactly(key, team);
      if IsPlatformKey(key) {
        PlatformIsNoTeams(key, team);
      } else {
        TenantKeyIsWritten(key, team);
        TenantKeyReads(StripData(key).0, team, PreviewRest(Rest(key, team)));
        var next := TenantKey(StripData(key).0, team, PreviewRest(Rest(key, team)));
        NotPlatforms(next, team);
      }
    }
  }

  lemma PlatformIsNoTeams(key: string, team: string)
    requires IsPlatformKey(key)
    ensures !(key != "" && TEAMS <= StripData(key).1) && !IsTenantKey(key, team)
  {
    if key == "" {
      assert StripData(key).1 == "";
    } else {
      assert StripData(key).1[0] == PLATFORM[0] != TEAMS[0];
    }
  }

  lemma NotPlatforms(key: string, team: string)
    requires IsTenantKey(key, team)
    ensures key != "" && !(PLATFORM <= StripData(key).1) && TEAMS <= StripData(key).1
  {
    TenantKeyIsWritten(key, team);
    TeamPathsStandApart(team, Rest(key, team));
    assert StripData(key).1 == TeamPrefix(team) + Rest(key, team);
    assert StripData("").1 == "";
  }

  /** A rewrite of the items, key by key. */
  ghost predicate AreMoved(before: seq<Json>, after: seq<Json>, team: string) {
    && |after| == |before|
    && forall i :: 0 <= i < |before| ==>
         if exists key :: Holds(before[i], Str(key))
         then exists key, next :: Holds(before[i], Str(key)) && Moves(key, next, team)
                                  && after[i] == Obj(before[i].fields["remoteKey" := Str(next)])
         else after[i] == before[i]
  }

  lemma ItemsExactly(items: seq<Json>, team: string)
    ensures RewriteItems(items, team).Some? <==>
      forall i, value :: 0 <= i < |items| && Holds(items[i], value) ==>
        value.Str? && (IsPlatforms(value.s) || IsTeams(value.s, team))
    ensures RewriteItems(items, team).Some? ==> AreMoved(items, RewriteItems(items, team).value, team)
    ensures RewriteItems(items, team).Some? ==>
              (HasKeyUnder(RewriteItems(items, team).value, PLATFORM) <==> HoldsPlatforms(items))
              && (HasKeyUnder(RewriteItems(items, team).value, TEAMS) <==> HoldsTeams(items, team))
  {
    forall i | 0 <= i < |items|
      ensures RewriteItem(items[i], team).Some? <==>
        forall value :: Holds(items[i], value) ==> value.Str? && (IsPlatforms(value.s) || IsTeams(value.s, team))
    {
      ItemExactly(items[i], team);
    }
    if RewriteItems(items, team).Some? {
      ItemsMove(items, team);
      KindsStay(items, team);
    }
  }

  lemma ItemsMove(items: seq<Json>, team: string)
    requires RewriteItems(items, team).Some?
    ensures AreMoved(items, RewriteItems(items, team).value, team)
  {
    forall i | 0 <= i < |items|
      ensures if exists key :: Holds(items[i], Str(key))
              then exists key, next :: Holds(items[i], Str(key)) && Moves(key, next, team)
                                       && RewriteItem(items[i], team) == Some(Obj(items[i].fields["remoteKey" := Str(next)]))
              else RewriteItem(items[i], team) == Some(items[i])
    {
      ItemExactly(items[i], team);
      if HoldsAKey(items[i]) {
        assert Holds(items[i], Str(items[i].fields["remoteKey"].s));
      }
    }
  }

  lemma KindsStay(items: seq<Json>, team: string)
    requires RewriteItems(items, team).Some?
    ensures HasKeyUnder(RewriteItems(items, team).value, PLATFORM) <==> HoldsPlatforms(items)
    ensures HasKeyUnder(RewriteItems(items, team).value, TEAMS) <==> HoldsTeams(items, team)
  {
    var after := RewriteItems(items, team).value;
    forall i | 0 <= i < |items|
      ensures KeyIsUnder(after[i], PLATFORM) <==> exists key :: Holds(items[i], Str(key)) && key != "" && IsPlatforms(key)
      ensures KeyIsUnder(after[i], TEAMS) <==> exists key :: Holds(items[i], Str(key)) && IsTeams(key, team)
    {
      KindStays(items[i], team);
    }
  }

  /** A secret is rewritten exactly when its keys are accepted; its team keys force the store, and nothing else does. */
  lemma SecretExactly(fields: Fields, items: seq<Json>, team: string)
    requires Lists(fields, items)
    ensures RewriteSecret(fields, team).Some? <==> IsAccepted(items, team)
    ensures RewriteSecret(fields, team).Some? ==>
              var out := RewriteSecret(fields, team).value;
              && AreMoved(items, DataOf(out), team)
              && (HoldsTeams(items, team) ==>
                    "store" in out && out["store"] == Str("tenant-store")
                    && "storeKind" in out && out["storeKind"] == Str("SecretStore")
                    && out - {"data", "store", "storeKind"} == fields - {"data", "store", "storeKind"})
              && (!HoldsTeams(items, team) ==> out - {"data"} == fields - {"data"})
  {
    ItemsExactly(items, team);
    if RewriteSecret(fields, team).Some? {
      var next := SecretReads(fields, team);
      SecretFrame(fields, team);
    }
  }

  // ---------------------------------------------------------------- the values

  /** The part is a mapping with these fields. */
  predicate HasPart(values: Fields, name: string, fields: Fields) {
    name in values && values[name] == Obj(fields)
  }

  ghost predicate SecretIsAccepted(fields: Fields, team: string) {
    exists items :: Lists(fields, items) && IsAccepted(items, team)
  }

  /** A path that is there and not empty is the platform's or the team's. */
  ghost predicate PathIsAccepted(fields: Fields, team: string) {
    "vaultPath" in fields && Truthy(fields["vaultPath"]) ==>
      fields["vaultPath"].Str? && (IsPlatforms(fields["vaultPath"].s) || IsTeams(fields["vaultPath"].s, team))
  }

  /** Of each kind: a secret, a mapping of secrets, a database. */
  ghost predicate ValuesAreAccepted(values: Fields, team: string) {
    && (forall fields :: HasPart(values, "externalSecret", fields) ==> SecretIsAccepted(fields, team))
    && (forall entries, name, fields :: HasPart(values, "extraExternalSecrets", entries) && HasPart(entries, name, fields) ==>
          SecretIsAccepted(fields, team))
    && (forall fields :: HasPart(values, "dbSecret", fields) ==> PathIsAccepted(fields, team))
  }

  lemma SecretAcceptedExactly(fields: Fields, team: string)
    ensures RewriteSecret(fields, team).Some? <==> SecretIsAccepted(fields, team)
  {
    assert Lists(fields, DataOf(fields));
    SecretExactly(fields, DataOf(fields), team);
    forall items | Lists(fields, items) ensures items == DataOf(fields) {}
  }

  lemma PathAcceptedExactly(fields: Fields, team: string)
    ensures RewriteDb(fields, team).Some? <==> PathIsAccepted(fields, team)
  {
    if "vaultPath" in fields && fields["vaultPath"].Str? {
      RewriteKeyShape(fields["vaultPath"].s, team);
      PlatformsExactly(fields["vaultPath"].s);
      TeamsExactly(fields["vaultPath"].s, team);
    }
  }

  lemma PartExactly(values: Fields, name: string, team: string)
    requires name in values
    ensures RewritePart(name, values[name], team).Some? <==>
      && (name == "externalSecret" ==> forall fields :: HasPart(values, name, fields) ==> SecretIsAccepted(fields, team))
      && (name == "extraExternalSecrets" ==>
            forall entries, n, fields :: HasPart(values, name, entries) && HasPart(entries, n, fields) ==>
              SecretIsAccepted(fields, team))
      && (name == "dbSecret" ==> forall fields :: HasPart(values, name, fields) ==> PathIsAccepted(fields, team))
  {
    var value := values[name];
    assert EXTERNAL[3] == 'e' && EXTRAS[3] == 'r';
    assert DB[0] == 'd' && EXTERNAL[0] == 'e' && EXTRAS[0] == 'e';
    if name == EXTERNAL && value.Obj? {
      SecretAcceptedExactly(value.fields, team);
      assert HasPart(values, name, value.fields);
    } else if name == EXTRAS && value.Obj? {
      ExtrasExactly(value.fields, team);
      assert HasPart(values, name, value.fields);
    } else if name == DB && value.Obj? {
      PathAcceptedExactly(value.fields, team);
      assert HasPart(values, name, value.fields);
    }
  }

  lemma ExtrasExactly(entries: Fields, team: string)
    ensures RewriteExtras(entries, team).Some? <==>
      forall n, fields :: HasPart(entries, n, fields) ==> SecretIsAccepted(fields, team)
  {
    forall n | n in entries
      ensures RewriteEntry(entries[n], team).Some? <==>
                forall fields :: HasPart(entries, n, fields) ==> SecretIsAccepted(fields, team)
    {
      if entries[n].Obj? {
        SecretAcceptedExactly(entries[n].fields, team);
        assert HasPart(entries, n, entries[n].fields);
      }
    }
  }

  /** The values are rewritten exactly when their keys and paths, as they are before, are accepted. */
  lemma ValuesExactly(values: Fields, team: string)
    ensures RewriteValues(values, team).Some? <==> ValuesAreAccepted(values, team)
  {
    forall name | name in values
      ensures RewritePart(name, values[name], team).Some? <==>
        && (name == "externalSecret" ==> forall fields :: HasPart(values, name, fields) ==> SecretIsAccepted(fields, team))
        && (name == "extraExternalSecrets" ==>
              forall entries, n, fields :: HasPart(values, name, entries) && HasPart(entries, n, fields) ==>
                SecretIsAccepted(fields, team))
        && (name == "dbSecret" ==> forall fields :: HasPart(values, name, fields) ==> PathIsAccepted(fields, team))
    {
      PartExactly(values, name, team);
    }
  }

  /** A database path that is there moves as a key does, and the team's forces the store. */
  lemma PathMoves(fields: Fields, key: string, team: string)
    requires "vaultPath" in fields && fields["vaultPath"] == Str(key) && key != "" && RewriteDb(fields, team).Some?
    ensures exists next :: Moves(key, next, team) && RewriteDb(fields, team).value ==
              var moved := fields["vaultPath" := Str(next)];
              if IsTeams(key, team) then moved["store" := Str("tenant-store")]["storeKind" := Str("SecretStore")] else moved
  {
    var next := RewriteKey(key, team).value;
    KeyExactly(key, next, team);
    RewriteKeyShape(key, team);
    TeamsExactly(key, team);
    if IsPlatformKey(key) {
      PlatformIsNoTeams(key, team);
    } else {
      TenantKeyIsWritten(key, team);
      TenantKeyReads(StripData(key).0, team, PreviewRest(Rest(key, team)));
      NotPlatforms(next, team);
    }
  }
}
