/**
 * `json_walk` and the mapping half of `fetch_user_details`: the user's
 * id, username, name, email and group claims, each read from the parsed
 * profile at the path the site settings give for it.
 */
module ProfileMapper {
  import opened Wrappers
  import opened Text
  import opened Json
  import opened PathExtractor

  /** The attributes read from a profile, the keys of `user_details`. */
  datatype Prop = UserId | Username | DisplayName | Email | Groups

  /** The `oauth2_json_<prop>_path` settings. */
  datatype PathConfig = PathConfig(
    userIdPath: string,
    usernamePath: string,
    namePath: string,
    emailPath: string,
    groupsPath: string)

  function PathOf(cfg: PathConfig, prop: Prop): string {
    match prop
    case UserId => cfg.userIdPath
    case Username => cfg.usernamePath
    case DisplayName => cfg.namePath
    case Email => cfg.emailPath
    case Groups => cfg.groupsPath
  }

  /**
   * What `json_walk` stores for `prop`: the extracted value when the
   * configured path is present and so is the value, nothing otherwise.
   */
  function Extracted(userJson: Json, cfg: PathConfig, prop: Prop): (r: Option<Json>)
    ensures r.Some? ==> Present(r.value) && !BlankString(PathOf(cfg, prop))
  {
    var path := PathOf(cfg, prop);
    if BlankString(path) then None
    else
      var v := WalkPath(userJson, Split(path, '.'));
      if Present(v) then Some(v) else None
  }

  /** `user_details[prop]`: the stored value, or nil. */
  function Attribute(userJson: Json, cfg: PathConfig, prop: Prop): (v: Json)
    ensures v == Nil || Present(v)
  {
    match Extracted(userJson, cfg, prop)
    case Some(x) => x
    case None => Nil
  }

  /** The `result` hash that `fetch_user_details` fills in place. */
  class UserDetails {
    var fields: map<Prop, Json>

    constructor ()
      ensures fields == map[]
    {
      fields := map[];
    }

    /** `json_walk(result, user_json, prop)`. */
    method JsonWalk(userJson: Json, cfg: PathConfig, prop: Prop)
      modifies this
      ensures fields == match Extracted(userJson, cfg, prop)
                        case Some(v) => old(fields)[prop := v]
                        case None => old(fields)
    {
      var path := PathOf(cfg, prop);
      if !BlankString(path) {
        var segments := Split(path, '.');
        var val := WalkPath(userJson, segments);
        if Present(val) {
          fields := fields[prop := val];
        }
      }
    }
  }

  /**
   * The pure half of `fetch_user_details`: a key is in the result exactly
   * when its path is configured and yields a present value, and then
   * holds that value; a blank profile gives an empty result.
   */
  method FetchUserDetails(userJson: Json, cfg: PathConfig) returns (details: map<Prop, Json>)
    ensures forall p :: p in details <==> Extracted(userJson, cfg, p).Some?
    ensures forall p :: p in details ==> details[p] == Extracted(userJson, cfg, p).value
    ensures forall p :: p in details ==> Present(details[p])
    ensures Blank(userJson) ==> details == map[]
    ensures forall p :: Lookup(details, p) == Attribute(userJson, cfg, p)
  {
    var result := new UserDetails();
    if Present(userJson) {
      ghost var before: map<Prop, Json>;
      ghost var done: set<Prop> := {};
      before := result.fields;
      result.JsonWalk(userJson, cfg, UserId);
      FilledStep(before, result.fields, userJson, cfg, done, UserId);
      done := done + {UserId};
      before := result.fields;
      result.JsonWalk(userJson, cfg, Username);
      FilledStep(before, result.fields, userJson, cfg, done, Username);
      done := done + {Username};
      before := result.fields;
      result.JsonWalk(userJson, cfg, DisplayName);
      FilledStep(before, result.fields, userJson, cfg, done, DisplayName);
      done := done + {DisplayName};
      before := result.fields;
      result.JsonWalk(userJson, cfg, Email);
      FilledStep(before, result.fields, userJson, cfg, done, Email);
      done := done + {Email};
      before := result.fields;
      result.JsonWalk(userJson, cfg, Groups);
      FilledStep(before, result.fields, userJson, cfg, done, Groups);
      done := done + {Groups};
      FilledAll(result.fields, userJson, cfg, done);
    } else {
      BlankProfileYieldsNothing(userJson, cfg);
    }
    details := result.fields;
  }

  /** `fields` holds what `json_walk` stores for the props in `done`, and no other key. */
  ghost predicate Filled(fields: map<Prop, Json>, userJson: Json, cfg: PathConfig, done: set<Prop>) {
    forall p :: (p in fields <==> p in done && Extracted(userJson, cfg, p).Some?)
      && (p in fields ==> fields[p] == Extracted(userJson, cfg, p).value)
  }

  /** One `json_walk` call extends what `fields` holds by one prop. */
  lemma FilledStep(before: map<Prop, Json>, after: map<Prop, Json>, userJson: Json, cfg: PathConfig, done: set<Prop>, prop: Prop)
    requires Filled(before, userJson, cfg, done)
    requires after == match Extracted(userJson, cfg, prop)
                      case Some(v) => before[prop := v]
                      case None => before
    ensures Filled(after, userJson, cfg, done + {prop})
  {
    forall p
      ensures (p in after <==> p in done + {prop} && Extracted(userJson, cfg, p).Some?)
        && (p in after ==> after[p] == Extracted(userJson, cfg, p).value)
    {
      if p != prop {
        assert p in after <==> p in before;
        assert p in after ==> after[p] == before[p];
      }
    }
  }

  /** Once all five props are walked, `fields` is the whole mapping. */
  lemma FilledAll(fields: map<Prop, Json>, userJson: Json, cfg: PathConfig, done: set<Prop>)
    requires Filled(fields, userJson, cfg, done)
    requires UserId in done && Username in done && DisplayName in done && Email in done && Groups in done
    ensures forall p :: p in fields <==> Extracted(userJson, cfg, p).Some?
    ensures forall p :: p in fields ==> fields[p] == Extracted(userJson, cfg, p).value
    ensures forall p :: Lookup(fields, p) == Attribute(userJson, cfg, p)
  {
    forall p: Prop ensures p in fields <==> Extracted(userJson, cfg, p).Some? {
      assert p in done by {
        match p
        case UserId =>
        case Username =>
        case DisplayName =>
        case Email =>
        case Groups =>
      }
    }
  }

  /** Nothing is extracted from a blank profile, whatever the paths. */
  lemma BlankProfileYieldsNothing(userJson: Json, cfg: PathConfig)
    requires Blank(userJson)
    ensures forall p :: Extracted(userJson, cfg, p) == None
    ensures forall p :: Attribute(userJson, cfg, p) == Nil
  {
  }
}
