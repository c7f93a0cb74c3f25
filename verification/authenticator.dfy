/**
 * `OAuth2BasicAuthenticator`'s state-changing half: group reconciliation
 * (`update_user_groups`), identity resolution (`after_authenticate`) and
 * linking (`after_create_account`), over an abstract view of the host:
 * its groups, memberships, users and the plugin's key-value store.
 */
module Authenticator {
  import opened Wrappers
  import opened Text
  import opened Json
  import opened ProfileMapper
  import opened GroupSync

  /** The site settings the authenticator reads. */
  datatype Settings = Settings(
    paths: PathConfig,              // oauth2_json_*_path
    emailVerified: bool,            // oauth2_email_verified
    groupMatching: string,          // oauth2_group_matching
    groupsNameAttr: string)         // oauth2_json_groups_nameattr

  /** `extra_data`, carried from a login to account creation. */
  datatype ExtraData = ExtraData(userId: Json, groups: Json)

  /** The fields of `Auth::Result` that the authenticator sets. */
  datatype AuthResult = AuthResult(
    user: Option<nat>,
    name: Json,
    username: Json,
    email: Json,
    emailValid: bool,
    extra: ExtraData)

  /** `groups.join` raises on anything but an array. */
  datatype SyncError = GroupsNotAList

  /** The memberships one reconciliation destroyed and created. */
  datatype Changes = Changes(removed: set<string>, added: seq<string>)

  /**
   * `"#{v}"`: nil interpolates as nothing, numbers as their decimal
   * digits; arrays and hashes get a fixed stand-in text.
   */
  function Interpolated(v: Json): (text: string)
    ensures text == "" <==> v == Nil || v == Str("")
  {
    match v
    case Nil => ""
    case Bool(b) => if b then "true" else "false"
    case Num(n) => IntToString(n)
    case Str(s) => s
    case Arr(_) => "[...]"
    case Hash(_) => "{...}"
  }

  const LinkPrefix := "oauth2_basic_user_"

  /** The plugin-store key of a user id's link. */
  function LinkKey(userId: Json): (key: string)
    ensures LinkPrefix <= key
  {
    LinkPrefix + Interpolated(userId)
  }

  /**
   * `User.where(email: Email.downcase(email)).first`: the lookup ignores
   * case, only a string email finds anyone, and an email stored in its
   * downcased form finds its own user.
   */
  function ByEmail(emails: map<string, nat>, email: Json): (r: Option<nat>)
    ensures r.Some? ==> email.Str?
    ensures email.Str? && email.s in emails && Lower(email.s) == email.s ==> r == Some(emails[email.s])
  {
    match email
    case Str(s) => if Lower(s) in emails then Some(emails[Lower(s)]) else None
    case _ => None
  }

  /**
   * Lines 125-130: the user a login resolves to. A stored link decides
   * alone, and finds nobody when its user is gone; only without a link,
   * and only with `oauth2_email_verified` on, is the email looked up.
   */
  function Resolve(store: map<string, nat>, userIds: set<nat>, emails: map<string, nat>,
                   userId: Json, email: Json, emailVerified: bool): Option<nat>
  {
    var key := LinkKey(userId);
    if key in store then (if store[key] in userIds then Some(store[key]) else None)
    else if emailVerified then ByEmail(emails, email)
    else None
  }

  /** The group names the claims select under the configured rules. */
  function TargetNames(cfg: Settings, claims: seq<Json>): (names: set<string>)
    ensures forall n :: n in names <==> Selects(ParseRules(cfg.groupMatching), claims, cfg.groupsNameAttr, Some(n))
  {
    TargetsMembership(ParseRules(cfg.groupMatching), claims, cfg.groupsNameAttr);
    Names(Targets(ParseRules(cfg.groupMatching), claims, cfg.groupsNameAttr))
  }

  /** The host as the authenticator sees it. */
  class Site {
    var groupNames: set<string>             // the names of the groups that exist
    var membership: map<nat, set<string>>   // user id -> names of the groups the user is in
    var userIds: set<nat>                   // the users that exist
    var emails: map<string, nat>            // downcased email -> user id
    var store: map<string, nat>             // plugin store "oauth2_basic": link key -> user id

    /** Memberships are in existing groups; emails belong to existing users. */
    ghost predicate Valid()
      reads this
    {
      && (forall u :: u in membership ==> membership[u] <= groupNames)
      && (forall e :: e in emails ==> emails[e] in userIds)
    }

    /** `Group.joins(:users).where(users: { id: user })`: the user's groups. */
    function Held(user: nat): set<string>
      reads this
    {
      if user in membership then membership[user] else {}
    }

    constructor (groupNames: set<string>, membership: map<nat, set<string>>, userIds: set<nat>,
                 emails: map<string, nat>, store: map<string, nat>)
      requires forall u :: u in membership ==> membership[u] <= groupNames
      requires forall e :: e in emails ==> emails[e] in userIds
      ensures Valid()
      ensures this.groupNames == groupNames && this.membership == membership && this.userIds == userIds
      ensures this.emails == emails && this.store == store
    {
      this.groupNames := groupNames;
      this.membership := membership;
      this.userIds := userIds;
      this.emails := emails;
      this.store := store;
    }

    /**
     * `update_user_groups(user, groups)`. Afterwards the user is in
     * exactly the selected groups that exist: held groups that are
     * selected are kept untouched, every other held group is left, and
     * the missing selected groups that exist are joined. No group is
     * created and no other user's memberships change. Anything but an
     * array of claims raises before any change.
     */
    method UpdateUserGroups(user: nat, groups: Json, cfg: Settings) returns (r: Result<Changes, SyncError>)
      requires Valid()
      modifies this`membership
      ensures Valid()
      ensures r.Failure? <==> !groups.Arr?
      ensures r.Failure? ==> membership == old(membership)
      ensures r.Success? ==> Held(user) == TargetNames(cfg, groups.items) * groupNames
      ensures r.Success? ==> r.value.removed == old(Held(user)) - TargetNames(cfg, groups.items)
      ensures r.Success? ==> forall g :: g in r.value.added <==>
                               g in TargetNames(cfg, groups.items) * groupNames - old(Held(user))
      ensures r.Success? && TargetNames(cfg, groups.items) * groupNames <= old(Held(user)) ==> r.value.added == []
      ensures forall u :: u != user ==> Held(u) == old(Held(u))
    {
      if !groups.Arr? {
        return Failure(GroupsNotAList);
      }
      var grouplist := BuildTargetList(cfg.groupMatching, groups.items, cfg.groupsNameAttr);
      ghost var names := Names(grouplist);
      ghost var current := Held(user);
      var remaining, removed := LeaveUnselected(user, grouplist);
      var added := JoinListed(user, remaining);
      assert forall g :: Some(g) in remaining <==> g in names - current;
      r := Success(Changes(removed, added));
    }

    /**
     * Lines 94-103: every held group that the list names is struck from
     * the list (all its occurrences) and kept; every other one is left.
     */
    method LeaveUnselected(user: nat, grouplist: seq<Option<string>>)
      returns (remaining: seq<Option<string>>, removed: set<string>)
      requires Valid()
      modifies this`membership
      ensures Valid()
      ensures Held(user) == old(Held(user)) * Names(grouplist)
      ensures removed == old(Held(user)) - Names(grouplist)
      ensures forall x :: x in remaining <==> x in grouplist && (x.None? || x.value !in old(Held(user)))
      ensures forall u :: u != user ==> Held(u) == old(Held(u))
    {
      var current := Held(user);
      var pending := current;
      remaining := grouplist;
      removed := {};
      while pending != {}
        invariant pending <= current
        invariant Valid()
        invariant forall u :: u != user ==> Held(u) == old(Held(u))
        invariant Held(user) == pending + (current - pending) * Names(grouplist)
        invariant removed == (current - pending) - Names(grouplist)
        invariant forall x :: x in remaining <==> x in grouplist && (x.None? || x.value !in current - pending)
        decreases pending
      {
        var gname :| gname in pending;
        if Some(gname) in remaining {
          remaining := RemoveAll(remaining, Some(gname));
        } else {
          membership := membership[user := Held(user) - {gname}];
          removed := removed + {gname};
        }
        pending := pending - {gname};
      }
    }

    /** Lines 105-110: the user joins every group left on the list that exists. */
    method JoinListed(user: nat, grouplist: seq<Option<string>>) returns (added: seq<string>)
      requires Valid()
      modifies this`membership
      ensures Valid()
      ensures Held(user) == old(Held(user)) + (set g | g in added)
      ensures forall g :: g in added <==> Some(g) in grouplist && g in groupNames
      ensures (forall x :: x in grouplist && x.Some? ==> x.value !in groupNames) ==> added == []
      ensures forall u :: u != user ==> Held(u) == old(Held(u))
    {
      added := [];
      for i := 0 to |grouplist|
        invariant (forall x :: x in grouplist && x.Some? ==> x.value !in groupNames) ==> added == []
        invariant Valid()
        invariant forall u :: u != user ==> Held(u) == old(Held(u))
        invariant Held(user) == old(Held(user)) + (set g | g in added)
        invariant forall g :: g in added <==> Some(g) in grouplist[..i] && g in groupNames
      {
        match grouplist[i] {
          case Some(c) =>
            if c in groupNames {
              membership := membership[user := Held(user) + {c}];
              added := added + [c];
            }
          case None =>
        }
        assert grouplist[..i + 1] == grouplist[..i] + [grouplist[i]];
      }
      assert grouplist[..|grouplist|] == grouplist;
    }

    /**
     * `after_authenticate(auth)` on the parsed profile: fills the result
     * from the mapped profile, resolves the user by link or verified
     * email, and reconciles that user's groups when claims are present.
     */
    method AfterAuthenticate(userJson: Json, cfg: Settings) returns (r: Result<AuthResult, SyncError>)
      requires Valid()
      modifies this
      ensures Valid()
      ensures groupNames == old(groupNames) && userIds == old(userIds)
      ensures emails == old(emails) && store == old(store)
      ensures
        var userId := Attribute(userJson, cfg.paths, UserId);
        var email := Attribute(userJson, cfg.paths, Email);
        var groups := Attribute(userJson, cfg.paths, Groups);
        var user := Resolve(old(store), old(userIds), old(emails), userId, email, cfg.emailVerified);
        && (r.Failure? <==> user.Some? && groups != Nil && !groups.Arr?)
        && (r.Success? ==> r.value == AuthResult(
              user,
              Attribute(userJson, cfg.paths, DisplayName),
              Attribute(userJson, cfg.paths, Username),
              email,
              Present(email) && cfg.emailVerified,
              ExtraData(userId, groups)))
        && (user.Some? && groups.Arr? ==>
              && Held(user.value) == TargetNames(cfg, groups.items) * groupNames
              && forall u :: u != user.value ==> Held(u) == old(Held(u)))
        && (!(user.Some? && groups.Arr?) ==> membership == old(membership))
    {
      var details := FetchUserDetails(userJson, cfg.paths);
      r := Authenticate(details, cfg);
    }

    /** Lines 120-135: what `after_authenticate` does with the mapped profile. */
    method Authenticate(details: map<Prop, Json>, cfg: Settings) returns (r: Result<AuthResult, SyncError>)
      requires Valid()
      modifies this
      ensures Valid()
      ensures groupNames == old(groupNames) && userIds == old(userIds)
      ensures emails == old(emails) && store == old(store)
      ensures
        var userId := Lookup(details, UserId);
        var email := Lookup(details, Email);
        var groups := Lookup(details, Groups);
        var user := Resolve(old(store), old(userIds), old(emails), userId, email, cfg.emailVerified);
        && (r.Failure? <==> user.Some? && groups != Nil && !groups.Arr?)
        && (r.Success? ==> r.value == AuthResult(
              user, Lookup(details, DisplayName), Lookup(details, Username), email,
              Present(email) && cfg.emailVerified, ExtraData(userId, groups)))
        && (user.Some? && groups.Arr? ==>
              && Held(user.value) == TargetNames(cfg, groups.items) * groupNames
              && forall u :: u != user.value ==> Held(u) == old(Held(u)))
        && (!(user.Some? && groups.Arr?) ==> membership == old(membership))
    {
      var name := Lookup(details, DisplayName);
      var username := Lookup(details, Username);
      var email := Lookup(details, Email);
      var emailValid := Present(email) && cfg.emailVerified;

      var userId := Lookup(details, UserId);
      var user := FindUser(userId, email, cfg);

      var groups := Lookup(details, Groups);
      var extra := ExtraData(userId, groups);
      if user.Some? && groups != Nil {
        var sync := UpdateUserGroups(user.value, groups, cfg);
        if sync.Failure? {
          return Failure(sync.error);
        }
      }
      r := Success(AuthResult(user, name, username, email, emailValid, extra));
    }

    /**
     * Lines 125-130: a stored link decides alone, and finds nobody when
     * its user is gone; only without a link, and only with
     * `oauth2_email_verified` on, is the user looked up by email.
     */
    method FindUser(userId: Json, email: Json, cfg: Settings) returns (user: Option<nat>)
      requires Valid()
      ensures LinkKey(userId) in store ==>
                user == (if store[LinkKey(userId)] in userIds then Some(store[LinkKey(userId)]) else None)
      ensures LinkKey(userId) !in store && !cfg.emailVerified ==> user == None
      ensures LinkKey(userId) !in store && cfg.emailVerified ==>
                (user.Some? <==> email.Str? && Lower(email.s) in emails)
      ensures LinkKey(userId) !in store && cfg.emailVerified && user.Some? ==> user.value == emails[Lower(email.s)]
      ensures user.Some? ==> user.value in userIds
      ensures user == Resolve(store, userIds, emails, userId, email, cfg.emailVerified)
    {
      var currentInfo := LinkKey(userId);
      user := None;
      if currentInfo in store {
        var linked := store[currentInfo];
        user := if linked in userIds then Some(linked) else None;
      } else if cfg.emailVerified {
        user := ByEmail(emails, email);
      }
    }

    /**
     * `after_create_account(user, auth)`: links the new account to the
     * carried user id, then reconciles its groups. The link is written
     * even when the reconciliation raises.
     */
    method AfterCreateAccount(user: nat, extra: ExtraData, cfg: Settings) returns (r: Result<Changes, SyncError>)
      requires Valid()
      modifies this
      ensures Valid()
      ensures store == old(store)[LinkKey(extra.userId) := user]
      ensures groupNames == old(groupNames) && userIds == old(userIds) && emails == old(emails)
      ensures r.Failure? <==> !extra.groups.Arr?
      ensures r.Failure? ==> membership == old(membership)
      ensures r.Success? ==> Held(user) == TargetNames(cfg, extra.groups.items) * groupNames
      ensures forall u :: u != user ==> Held(u) == old(Held(u))
    {
      store := store[LinkKey(extra.userId) := user];
      r := UpdateUserGroups(user, extra.groups, cfg);
    }

    /**
     * A second reconciliation with the same claims and settings destroys
     * and creates nothing.
     */
    method UpdateUserGroupsTwice(user: nat, groups: Json, cfg: Settings)
      returns (first: Result<Changes, SyncError>, second: Result<Changes, SyncError>)
      requires Valid()
      modifies this
      ensures Valid()
      ensures first.Success? <==> groups.Arr?
      ensures second.Success? ==> second.value == Changes({}, [])
    {
      first := UpdateUserGroups(user, groups, cfg);
      ghost var between := Held(user);
      second := UpdateUserGroups(user, groups, cfg);
      if second.Success? {
        var names := TargetNames(cfg, groups.items);
        assert between == names * groupNames;
        assert second.value.removed == {};
      }
    }

    /**
     * A link written when an account is created is what a later login
     * with the same user id resolves to, whatever its email says.
     */
    method CreateThenAuthenticate(user: nat, extra: ExtraData, userJson: Json, cfg: Settings)
      returns (created: Result<Changes, SyncError>, login: Result<AuthResult, SyncError>)
      requires Valid() && user in userIds
      requires Attribute(userJson, cfg.paths, UserId) == extra.userId
      modifies this
      ensures login.Success? ==> login.value.user == Some(user)
    {
      created := AfterCreateAccount(user, extra, cfg);
      login := AfterAuthenticate(userJson, cfg);
    }
  }


  /** A stored link decides the user whatever the email and the email setting say. */
  lemma LinkOverridesEmail(store: map<string, nat>, userIds: set<nat>, emails: map<string, nat>,
                           userId: Json, email: Json, verified: bool, otherEmail: Json, otherVerified: bool)
    requires LinkKey(userId) in store
    ensures Resolve(store, userIds, emails, userId, email, verified)
         == Resolve(store, userIds, emails, userId, otherEmail, otherVerified)
    ensures Resolve(store, userIds, emails, userId, email, verified).Some?
        <==> store[LinkKey(userId)] in userIds
  {
  }

  /**
   * A user found without a link was found by the downcased email, and
   * only because `oauth2_email_verified` is on.
   */
  lemma EmailResolvesOnlyWithoutLink(store: map<string, nat>, userIds: set<nat>, emails: map<string, nat>,
                                     userId: Json, email: Json, verified: bool)
    requires LinkKey(userId) !in store
    requires Resolve(store, userIds, emails, userId, email, verified).Some?
    ensures verified && email.Str? && Lower(email.s) in emails
    ensures Resolve(store, userIds, emails, userId, email, verified) == Some(emails[Lower(email.s)])
  {
  }

  /**
   * The link `after_create_account` writes is found by a later
   * `after_authenticate` whose user id gives the same key.
   */
  lemma CreatedLinkIsFound(store: map<string, nat>, userIds: set<nat>, emails: map<string, nat>,
                           linkedId: Json, user: nat, userId: Json, email: Json, verified: bool)
    requires user in userIds && LinkKey(userId) == LinkKey(linkedId)
    ensures Resolve(store[LinkKey(linkedId) := user], userIds, emails, userId, email, verified) == Some(user)
  {
  }

  /** Distinct string user ids get distinct links. */
  lemma LinkKeyInjectiveOnStrings(a: string, b: string)
    requires LinkKey(Str(a)) == LinkKey(Str(b))
    ensures a == b
  {
    assert a == LinkKey(Str(a))[|LinkPrefix|..];
    assert b == LinkKey(Str(b))[|LinkPrefix|..];
  }

  /**
   * The key is built even without a user id: every login whose profile
   * has none shares the one key `oauth2_basic_user_`, so once an account
   * is created for such a login, later id-less logins resolve to it.
   */
  lemma MissingIdsShareOneLink(store: map<string, nat>, userIds: set<nat>, emails: map<string, nat>,
                               user: nat, email: Json, verified: bool)
    requires user in userIds
    ensures LinkKey(Nil) == LinkPrefix == LinkKey(Str(""))
    ensures Resolve(store[LinkKey(Nil) := user], userIds, emails, Nil, email, verified) == Some(user)
  {
  }

  /**
   * A numeric user id shares its link with exactly one string id: its
   * decimal text.
   */
  lemma NumericIdSharesStringKey(n: int, s: string)
    ensures LinkKey(Num(n)) == LinkKey(Str(s)) <==> s == IntToString(n)
  {
    if LinkKey(Num(n)) == LinkKey(Str(s)) {
      assert s == LinkKey(Str(s))[|LinkPrefix|..];
      assert IntToString(n) == LinkKey(Num(n))[|LinkPrefix|..];
    }
  }

  /** Distinct numeric user ids get distinct links. */
  lemma LinkKeyInjectiveOnNumbers(a: int, b: int)
    requires LinkKey(Num(a)) == LinkKey(Num(b))
    ensures a == b
  {
    assert IntToString(a) == LinkKey(Num(a))[|LinkPrefix|..];
    assert IntToString(b) == LinkKey(Num(b))[|LinkPrefix|..];
    IntToStringInjective(a, b);
  }

  /** The email lookup ignores case: an email and its downcased form find the same user. */
  lemma EmailIgnoresCase(emails: map<string, nat>, s: string)
    ensures ByEmail(emails, Str(s)) == ByEmail(emails, Str(Lower(s)))
  {
    LowerIdempotent(s);
  }

  /** A rule string holding one `org=match` entry parses to that one rule. */
  lemma SingleRuleParse(org: string, target: string)
    requires '=' !in org && ',' !in org && '=' !in target && ',' !in target && target != ""
    ensures ParseRules(org + "=" + target) == [Rule(Some(org), Some(target))]
  {
    var entry := org + "=" + target;
    assert ',' !in entry;
    SplitAllNoSeparator(entry, ',');
    assert entry[|entry| - 1] == target[|target| - 1];
    ParseRulePair(org, target);
  }

  /**
   * A single rule `org=match` (for instance `x=A`) and the claim `org`
   * select the group `match` and nothing else; any other claim selects
   * nothing.
   */
  lemma SingleRuleSelectsItsGroup(cfg: Settings, org: string, target: string, other: string)
    requires '=' !in org && ',' !in org && '=' !in target && ',' !in target && target != ""
    requires cfg.groupMatching == org + "=" + target && cfg.groupsNameAttr == "" && other != org
    ensures TargetNames(cfg, [Str(org)]) == {target}
    ensures TargetNames(cfg, [Str(other)]) == {}
  {
    SingleRuleParse(org, target);
    var rule := Rule(Some(org), Some(target));
    var rules := [rule];
    assert rules[..0] == [];
    assert Hits(rule, [Str(org)], "") == [Some(target)];
    assert Hits(rule, [Str(other)], "") == [];
    assert Targets(rules, [Str(org)], "") == [Some(target)];
    assert Targets(rules, [Str(other)], "") == [];
  }

  /**
   * An entry without `=` followed by an `org=match` pair parses to an
   * inert rule and that pair.
   */
  lemma MixedRulesParse(bad: string, org: string, target: string)
    requires '=' !in bad && ',' !in bad
    requires '=' !in org && ',' !in org && '=' !in target && ',' !in target && target != ""
    ensures ParseRules(bad + "," + org + "=" + target)
         == [Rule(if bad == "" then None else Some(bad), None), Rule(Some(org), Some(target))]
  {
    var good := org + "=" + target;
    assert ',' !in good;
    assert bad + "," + org + "=" + target == bad + [','] + good;
    SplitAllFirstField(bad, ',', good);
    SplitAllNoSeparator(good, ',');
    assert good[|good| - 1] == target[|target| - 1];
    assert Split(bad + [','] + good, ',') == [bad, good];
    ParseRuleWithoutSeparator(bad);
    ParseRulePair(org, target);
  }

  /** A malformed entry next to a good one leaves the good one working and selects nothing itself. */
  lemma MalformedEntryIsInert(cfg: Settings, bad: string, org: string, target: string)
    requires '=' !in bad && ',' !in bad && bad != "" && bad != org
    requires '=' !in org && ',' !in org && '=' !in target && ',' !in target && target != ""
    requires cfg.groupMatching == bad + "," + org + "=" + target && cfg.groupsNameAttr == ""
    ensures TargetNames(cfg, [Str(org)]) == {target}
    ensures TargetNames(cfg, [Str(bad)]) == {}
  {
    MixedRulesParse(bad, org, target);
    var inert := Rule(Some(bad), None);
    var pair := Rule(Some(org), Some(target));
    var rules := [inert, pair];
    assert rules[..1] == [inert];
    assert [inert][..0] == [];
    assert Hits(inert, [Str(org)], "") == [];
    assert Hits(pair, [Str(org)], "") == [Some(target)];
    assert Hits(inert, [Str(bad)], "") == [None];
    assert Hits(pair, [Str(bad)], "") == [];
    assert Targets([inert], [Str(org)], "") == [];
    assert Targets([inert], [Str(bad)], "") == [None];
    assert Targets(rules, [Str(org)], "") == [Some(target)];
    assert Targets(rules, [Str(bad)], "") == [None];
  }

  /**
   * With a name attribute, the token is that field of an object claim;
   * a plain claim, even one equal to the rule's `org`, selects nothing.
   */
  lemma NameAttributeSelectsField(cfg: Settings, attr: string, org: string, target: string)
    requires '=' !in org && ',' !in org && '=' !in target && ',' !in target && target != ""
    requires cfg.groupMatching == org + "=" + target && cfg.groupsNameAttr == attr && attr != ""
    ensures TargetNames(cfg, [Hash(map[Name(attr) := Str(org)])]) == {target}
    ensures TargetNames(cfg, [Str(org)]) == {}
  {
    SingleRuleParse(org, target);
    var rule := Rule(Some(org), Some(target));
    var rules := [rule];
    var claim := Hash(map[Name(attr) := Str(org)]);
    assert rules[..0] == [];
    assert Token(claim, attr) == Str(org);
    assert Hits(rule, [claim], attr) == [Some(target)];
    assert Hits(rule, [Str(org)], attr) == [];
    assert Targets(rules, [claim], attr) == [Some(target)];
    assert Targets(rules, [Str(org)], attr) == [];
  }
}
