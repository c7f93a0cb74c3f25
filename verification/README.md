# discourse-oauth2-basic: identity mapping and group sync, in Dafny

This project models the logic of the `OAuth2BasicAuthenticator` in
`plugin.rb` of the Discourse "OAuth2 Basic" plugin and proves properties
of it. The plugin signs users in through a generic OAuth2 provider. It
reads the user's id, username, name, email and group claims out of the
provider's JSON profile at configurable dotted paths. It links the
provider's user id to a local account. It then reconciles the user's
local group memberships with the claims.

Modules, leaf first:

- `Wrappers` (wrappers.dfy): `Option` for Ruby's nil-or-value, and
  `Result` for calls that raise.
- `Text` (text.dfy): the Ruby and Rails string operations the plugin
  uses. `String#split` with a one-character separator is `Split`: the
  fields between separators, with empty fields at the end dropped, so
  `"".split(",")` is `[]`. The others are `blank?`, ASCII `downcase` and
  integer `to_s`.
- `Json` (json.dfy): the parsed profile as a tree (`Nil`, `Bool`, `Num`,
  `Str`, `Arr`, `Hash`). Hash keys are strings (`Name`) or symbols
  (`Symbol`). The module also has Rails `blank?` and `present?`, Ruby
  truthiness, and `Hash#[]`.
- `PathExtractor` (path_extractor.dfy): `walk_path` (`WalkPath`) and its
  key lookup (`Deref`). `Put`, which stores a value at a path, is the
  reference for the round-trip lemmas.
- `ProfileMapper` (profile_mapper.dfy): `json_walk` as a method of the
  `UserDetails` class, whose `fields` map is the result hash it fills in
  place. `FetchUserDetails` is the mapping half of `fetch_user_details`.
- `GroupSync` (group_sync.dfy): rule parsing (`ParseRule`,
  `ParseRules`) and the claim token (`Token`). `BuildTargetList` is the
  nested loop that builds `grouplist`. The specification functions
  `Hits`, `Targets` and `Names` describe what that loop produces.
  `RemoveAll` is `Array#delete`.
- `Authenticator` (authenticator.dfy): the class `Site`, which holds the
  host state the plugin touches:
  - the names of the existing groups;
  - each user's memberships;
  - the set of users;
  - an index from downcased email to user;
  - the plugin store's link keys.

  Its methods are `update_user_groups`, `after_authenticate` and
  `after_create_account`. The pure function `Resolve` states which user
  a login resolves to.

Points where the code behaves in ways a reader might not expect, and
which the model keeps:

- Without a user id, line 125 still builds the key `oauth2_basic_user_`,
  so every login without an id shares one link
  (`MissingIdsShareOneLink`).
- A rule entry without `=` is not dropped: lines 77-79 give it a nil
  target. An empty entry also gets a nil `org`, which a nil token
  matches and which then adds a nil target. Nil names no group, so these
  entries are inert, but they are in the list (`MixedRulesParse`,
  `MalformedEntryIsInert`).
- With a name attribute set, lines 80-86 index every claim with it, not
  only hash claims. In this model a claim that is not a hash gives a nil
  token (see `GroupSync.Token` under "Left out").
- A failed membership change on lines 101 and 108 is neither caught nor
  reported by the code, and the model does not report it either.

## Model

| member | source | states |
|---|---|---|
| `Text.SplitAll` | plugin.rb:47 | every field between separators, at least one field, and no field contains the separator |
| `Text.Split` | plugin.rb:47 | Ruby `split` with a one-character separator (also lines 73 and 77): no field holds the separator, the last field is not empty, and there are no fields exactly when the string is only separators; `JoinSplitAll`, `SplitAllJoin` and `ParseRulesOfEntries` give its round trips |
| `Text.SplitAllOnlySeparators` | plugin.rb:73 | every field between separators is empty exactly when the string is made only of separators, so an empty or comma-only rule string has no entries |
| `Text.DropTrailingEmpty` | plugin.rb:47 | the result is a prefix of the fields that does not end in an empty field, and only empty fields were dropped |
| `Text.JoinSplitAll` | plugin.rb:47 | splitting loses nothing: joining the fields with the separator gives back the string |
| `Text.SplitAllJoin` | plugin.rb:73 | splitting fields joined by the separator gives back those fields, when none contains the separator |
| `Text.SplitAllFirstField` | plugin.rb:77 | a field free of the separator, followed by the separator, is split off first |
| `Text.SplitAllNoSeparator` | plugin.rb:77 | a string without the separator is a single field |
| `Text.Lower` | plugin.rb:129 | `downcase` keeps the length, maps `A`-`Z` to `a`-`z` and keeps every other character |
| `Text.LowerIdempotent` | plugin.rb:129 | downcasing a downcased string changes nothing |
| `Text.NatToString` | plugin.rb:125 | the interpolated text of a number is a non-empty string of decimal digits that denotes the number (`DigitsValue`), with no leading zero |
| `Text.IntToString` | plugin.rb:125 | `Integer#to_s` as interpolation uses it: a minus sign before the digits of a negative number; `IntToStringInjective` shows distinct integers give distinct texts and `NumericIdSharesStringKey` ties it to the link key |
| `Text.IntToStringInjective` | plugin.rb:125 | distinct integers interpolate to distinct texts |
| `Json.Lookup` | plugin.rb:39 | the definition of `Hash#[]` (the stored value, or nil for a missing key), used for the profile's hashes and for `user_details[...]` on lines 120-133; `Deref`'s contract and `FetchUserDetails`'s last clause state what the plugin relies on |
| `Json.Blank` | plugin.rb:37 | Rails `blank?` (also lines 41, 46, 49, 59, 123): nil, false, white space, an empty array or hash; `WalkPath`, `Extracted` and `BlankProfileYieldsNothing` state its effect |
| `Json.Present` | plugin.rb:49 | Rails `present?`, the negation of `Blank`; `Extracted` and `Attribute` promise that every kept value satisfies it |
| `PathExtractor.Deref` | plugin.rb:39 | the string key wins unless it holds nil or false; only then is the symbol key read; the result is falsy exactly when both lookups are |
| `PathExtractor.WalkPath` | plugin.rb:35-38 | nil, without failing, for an empty path, a blank first segment, a blank fragment or a fragment that is not a hash |
| `PathExtractor.WalkPathAppend` | plugin.rb:41 | walking `p + q` is walking `p`, then `q` from there; if `p` already ended on a blank value, the longer walk returns that value unchanged |
| `PathExtractor.WalkPathPut` | plugin.rb:35-42 | a present value stored under string keys at a path of non-blank segments is found again at that path |
| `PathExtractor.WalkPathPutOther` | plugin.rb:35-42 | for every fragment, storing under one first key leaves every path through another first key as it was |
| `PathExtractor.SymbolKeyFound` | plugin.rb:39 | a value stored only under the symbol key is found through the string segment |
| `PathExtractor.FalseFallsThrough` | plugin.rb:39 | a string key holding `false` does not stop the lookup; with no symbol key the walk finds nil |
| `ProfileMapper.Extracted` | plugin.rb:45-49 | a value is stored only when the configured path is present, and the stored value is present |
| `ProfileMapper.Attribute` | plugin.rb:120-122 | `user_details[prop]` is nil or a present value |
| `ProfileMapper.UserDetails.constructor` | plugin.rb:58 | the result hash starts empty |
| `ProfileMapper.UserDetails.JsonWalk` | plugin.rb:44-51 | the hash gains `prop` with the extracted value when path and value are present, and is otherwise unchanged |
| `ProfileMapper.FetchUserDetails` | plugin.rb:58-67 | the result holds `prop` exactly when its path is present and yields a present value, and then holds that value; a blank profile gives an empty result |
| `ProfileMapper.FilledStep` | plugin.rb:60-64 | each `json_walk` call adds its own prop to what the result holds and changes no other key |
| `ProfileMapper.FilledAll` | plugin.rb:60-64 | after the five calls, every lookup in the result is the extracted attribute |
| `ProfileMapper.BlankProfileYieldsNothing` | plugin.rb:59 | nothing is extracted from a blank profile, whatever the paths |
| `GroupSync.BuildTargetList` | plugin.rb:72-90 | the nested loop builds exactly the list of targets, rule by rule and claim by claim; `m` is in it exactly when some rule with target `m` has an `org` equal to some claim's token |
| `GroupSync.HitsMembership` | plugin.rb:80-89 | one rule adds its target exactly when some claim's token equals its `org` |
| `GroupSync.TargetsMembership` | plugin.rb:76-90 | `m` is a target exactly when some rule with target `m` matches some claim |
| `GroupSync.RemoveAll` | plugin.rb:98 | `Array#delete` removes every occurrence of the entry and keeps every other entry; `RemoveAllCounts` and `RemoveAllAppend` add multiplicity and order |
| `GroupSync.RemoveAllCounts` | plugin.rb:98 | every entry other than the deleted one is kept exactly as often as it occurred, and a list without the entry is left unchanged |
| `GroupSync.RemoveAllAppend` | plugin.rb:98 | `Array#delete` keeps the order of the other entries: deleting from `a + b` is deleting from `a` and from `b` |
| `GroupSync.ParseRule` | plugin.rb:77-79 | `org` is the first `=`-field and `match` the second, nil when missing; `ParseRulePair` and `ParseRuleWithoutSeparator` state both cases |
| `GroupSync.ParseRules` | plugin.rb:73-79 | one rule per comma-separated entry, in order; `ParseRulesOfEntries` and `MixedRulesParse` state it |
| `GroupSync.Token` | plugin.rb:80-86 | the claim itself without a name attribute, else its field under that name (nil for a claim that is not a hash); `NameAttributeSelectsField` states both cases |
| `GroupSync.Matches` | plugin.rb:86 | `extGroup == org`, with a nil `org` equal only to a nil token; `HitsMembership` and `TargetsMembership` state what it selects |
| `GroupSync.ParseRulePair` | plugin.rb:77-79 | an `org=match` entry parses to that `org` and that target |
| `GroupSync.ParseRuleWithoutSeparator` | plugin.rb:77-79 | an entry without `=` has a nil target; an empty entry also has a nil `org` |
| `GroupSync.ParseRulesOfEntries` | plugin.rb:73-79 | the rules of a comma-joined string are its entries parsed one by one, so a malformed entry does not disturb the others |
| `Authenticator.LinkKey` | plugin.rb:125 | every link key starts with `oauth2_basic_user_`; distinct string ids, and distinct numeric ids, get distinct keys (`LinkKeyInjectiveOnStrings`, `LinkKeyInjectiveOnNumbers`) |
| `Authenticator.Interpolated` | plugin.rb:125 | `"#{id}"` is empty exactly for a nil id and an empty string id |
| `Authenticator.ByEmail` | plugin.rb:129 | only a string email finds anyone; an email stored in downcased form finds its own user; `EmailIgnoresCase` shows the lookup ignores case |
| `Authenticator.TargetNames` | plugin.rb:72-90 | a group name is selected exactly when some rule targets it and matches some claim |
| `Authenticator.Resolve` | plugin.rb:125-130 | which user a login resolves to; `LinkOverridesEmail`, `EmailResolvesOnlyWithoutLink` and `CreatedLinkIsFound` state its cases |
| `Authenticator.Site.Held` | plugin.rb:94 | the names of the groups the user is in, none for a user with no memberships; `UpdateUserGroups` states how it changes |
| `Authenticator.Site.UpdateUserGroups` | plugin.rb:70-111 | afterwards the user is in exactly the selected groups that exist; it leaves exactly the held groups that are not selected; it joins exactly the existing selected groups it was not in, and nothing when all of them were held; other users are unchanged; no group is created; anything but an array of claims raises with no change |
| `Authenticator.Site.LeaveUnselected` | plugin.rb:94-103 | held groups in the list are kept and all their occurrences are deleted from the list; every other held group is left; the removed set is exactly those groups |
| `Authenticator.Site.JoinListed` | plugin.rb:105-110 | the user joins exactly the listed names that name an existing group, and joins nothing when none does |
| `Authenticator.Site.UpdateUserGroupsTwice` | plugin.rb:94-110 | running the reconciliation a second time with the same claims and settings removes nothing and adds nothing |
| `Authenticator.Site.FindUser` | plugin.rb:125-130 | a stored link decides alone, and resolves nobody when its user is gone; without a link, the user is looked up by downcased email only when `oauth2_email_verified` is on |
| `Authenticator.Site.AfterAuthenticate` | plugin.rb:114-137 | the result carries the mapped name, username and email; `email_valid` is "email present and setting on"; the user is the one `Resolve` gives; `extra_data` holds the user id and groups; groups are reconciled only for a resolved user with claims; store, users and groups are unchanged |
| `Authenticator.Site.Authenticate` | plugin.rb:120-135 | the same promises as `AfterAuthenticate`, stated over the mapped `user_details` hash instead of the profile |
| `Authenticator.Site.AfterCreateAccount` | plugin.rb:139-144 | the link for the carried user id now names the new account, even when the group sync then raises; the account's groups are reconciled |
| `Authenticator.Site.CreateThenAuthenticate` | plugin.rb:125-141 | a login after account creation, with the same user id, resolves to the new account |
| `Authenticator.LinkOverridesEmail` | plugin.rb:125-130 | with a stored link, the resolved user depends neither on the email nor on the email setting |
| `Authenticator.EmailResolvesOnlyWithoutLink` | plugin.rb:126-130 | a user resolved without a link was found by downcased email, with `oauth2_email_verified` on |
| `Authenticator.CreatedLinkIsFound` | plugin.rb:141 | a link written for a user id is found by any later login whose user id gives the same key |
| `Authenticator.LinkKeyInjectiveOnStrings` | plugin.rb:125 | distinct string user ids get distinct link keys |
| `Authenticator.LinkKeyInjectiveOnNumbers` | plugin.rb:125 | distinct numeric user ids get distinct link keys |
| `Authenticator.EmailIgnoresCase` | plugin.rb:129 | an email and its downcased form find the same user |
| `Authenticator.MissingIdsShareOneLink` | plugin.rb:125 | a missing user id and an empty one share the key `oauth2_basic_user_`, so later id-less logins resolve to the account linked under it |
| `Authenticator.NumericIdSharesStringKey` | plugin.rb:125 | for every number, its link key equals a string id's key exactly when that string is the number's decimal text |
| `Authenticator.SingleRuleParse` | plugin.rb:73-79 | a rule string holding one `org=match` entry parses to exactly that rule |
| `Authenticator.SingleRuleSelectsItsGroup` | plugin.rb:72-90 | a single rule `org=match` (such as `x=A`) with the claim `org` selects exactly `match`; with any other plain claim it selects nothing |
| `Authenticator.MixedRulesParse` | plugin.rb:73-79 | for any entry without `=` or `,` followed by `org=match`, the list parses to an inert rule (nil target) followed by the pair `org`, `match` |
| `Authenticator.MalformedEntryIsInert` | plugin.rb:73-90 | next to a malformed entry `bad`, the rule `org=match` still selects `match` for a claim `org`, and a claim equal to `bad` selects nothing |
| `Authenticator.NameAttributeSelectsField` | plugin.rb:80-86 | with a name attribute, the token is that field of an object claim, so `{attr: org}` selects `match`; a plain claim `org` matches nothing |

## Left out

- OAuth client setup (`register_middleware`, `basic_auth_header`, lines 13-33) is left out. It is configuration for the OAuth2 client library and a Base64 call.
- The profile fetch and `JSON.parse` (lines 54-56) are left out because they are network I/O and a foreign parser. `AfterAuthenticate` takes the parsed tree as its input.
- Logging (`Rails.logger`) is left out. The one effect of logging that is kept is the `groups.join` at line 71, which raises on anything but an array. It is modelled as the `GroupsNotAList` failure, raised before any change.
- The ActiveRecord and `PluginStore` implementations are not modelled. Groups, memberships, users, the email index and the store are plain sets and maps on `Site`. `PluginStore` returning symbol or string keys for the stored hash is not modelled either.
- Authenticator.AfterCreateAccount: nil or non-array `groups` is the `GroupsNotAList` failure, with the link already written. There is no precondition.
- Concurrency is not modelled. Two logins racing through the reconciliation are out of scope.
- `auth_provider` registration and the CSS (lines 146-157) are left out. They are host registration and styling.
- GroupSync.Token: when a name attribute is set and a claim is not a hash, the model gives a nil token and carries on. Ruby instead takes a substring of a string claim (`String#[]`); an array claim raises `TypeError`, and nil, true, false or a number raises `NoMethodError` or `TypeError`. Such a raise aborts `update_user_groups` and with it `after_authenticate` or `after_create_account`, which the model does not capture.
- Authenticator.Interpolated: a user id that is an array or a hash is keyed by fixed stand-in text instead of Ruby's `inspect` form, so such ids share a key.
- Authenticator.Site.JoinListed: a name listed twice is joined twice by the code. In the model the second join leaves the membership set as it is, and what the host does with a duplicate `create` is not modelled.
- Json.Json: numbers are integers. Floating point is not modelled.
- Text.BlankString: only ASCII white space counts as blank, not the Unicode spaces Rails also accepts.
- Text.Lower: ASCII case mapping only. `Email.downcase` skipping emails it considers invalid is not modelled.
- Resolution and reconciliation errors from the host (a failed membership change) are not modelled, because the code neither catches nor reports them.
