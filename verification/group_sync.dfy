/**
 * The first half of `update_user_groups`: parsing the
 * `oauth2_group_matching` rules and collecting the local group names that
 * the provider's group claims select.
 */
module GroupSync {
  import opened Wrappers
  import opened Text
  import opened Json

  /**
   * One `org=match` entry of the rule string. `org` is nil for an entry
   * with no text before the first `=`-free field (an empty entry), and
   * `target` is nil when the entry has no second field.
   */
  datatype Rule = Rule(org: Option<string>, target: Option<string>)

  /** `g.split("=")`, then the first two fields (nil when missing). */
  function ParseRule(entry: string): Rule {
    var parts := Split(entry, '=');
    Rule(if |parts| > 0 then Some(parts[0]) else None,
         if |parts| > 1 then Some(parts[1]) else None)
  }

  /** `groupMatchStr.split(",")`, each entry parsed as a rule. */
  function ParseRules(matching: string): seq<Rule> {
    var entries := Split(matching, ',');
    seq(|entries|, k requires 0 <= k < |entries| => ParseRule(entries[k]))
  }

  /**
   * The claim's comparable token: `c[nameAttr]` when a name attribute is
   * set (a string-keyed lookup, nil on a claim that is not a hash), else
   * the claim itself.
   */
  function Token(claim: Json, nameAttr: string): Json {
    if |nameAttr| > 0 then
      (if claim.Hash? then Lookup(claim.fields, Name(nameAttr)) else Nil)
    else claim
  }

  /** `org` as the Ruby value compared with the token. */
  function OrgValue(org: Option<string>): Json {
    match org
    case Some(s) => Str(s)
    case None => Nil
  }

  /** `extGroup == org`. */
  predicate Matches(rule: Rule, claim: Json, nameAttr: string) {
    Token(claim, nameAttr) == OrgValue(rule.org)
  }

  /** What the inner loop appends for one rule, claim by claim. */
  function Hits(rule: Rule, claims: seq<Json>, nameAttr: string): seq<Option<string>> {
    if |claims| == 0 then []
    else
      Hits(rule, claims[..|claims| - 1], nameAttr)
        + (if Matches(rule, claims[|claims| - 1], nameAttr) then [rule.target] else [])
  }

  /** `grouplist` after the nested loop: rule by rule, the hits of each. */
  function Targets(rules: seq<Rule>, claims: seq<Json>, nameAttr: string): seq<Option<string>> {
    if |rules| == 0 then []
    else Targets(rules[..|rules| - 1], claims, nameAttr) + Hits(rules[|rules| - 1], claims, nameAttr)
  }

  /** Some rule with target `m` matches some claim. */
  predicate Selects(rules: seq<Rule>, claims: seq<Json>, nameAttr: string, m: Option<string>) {
    exists i, j :: 0 <= i < |rules| && 0 <= j < |claims| && rules[i].target == m && Matches(rules[i], claims[j], nameAttr)
  }

  /** The group names in a target list (nil entries name no group). */
  function Names(list: seq<Option<string>>): set<string> {
    set x | x in list && x.Some? :: x.value
  }

  /**
   * Lines 73-90: the target list, built by a loop over the rule entries
   * with a loop over the claims inside it.
   */
  method BuildTargetList(matching: string, claims: seq<Json>, nameAttr: string)
    returns (grouplist: seq<Option<string>>)
    ensures grouplist == Targets(ParseRules(matching), claims, nameAttr)
    ensures forall m :: m in grouplist <==> Selects(ParseRules(matching), claims, nameAttr, m)
  {
    var groupArr := Split(matching, ',');
    ghost var rules := ParseRules(matching);
    grouplist := [];
    for i := 0 to |groupArr|
      invariant grouplist == Targets(rules[..i], claims, nameAttr)
    {
      var rule := ParseRule(groupArr[i]);
      assert rule == rules[i];
      for j := 0 to |claims|
        invariant grouplist == Targets(rules[..i], claims, nameAttr) + Hits(rule, claims[..j], nameAttr)
      {
        var extGroup := Token(claims[j], nameAttr);
        if extGroup == OrgValue(rule.org) {
          grouplist := grouplist + [rule.target];
        }
        assert claims[..j + 1][..j] == claims[..j];
      }
      assert claims[..|claims|] == claims;
      assert rules[..i + 1][..i] == rules[..i];
    }
    assert rules[..|groupArr|] == rules;
    TargetsMembership(rules, claims, nameAttr);
  }

  /** A rule's hits are its target, once per claim that matches it. */
  lemma {:induction false} HitsMembership(rule: Rule, claims: seq<Json>, nameAttr: string)
    ensures forall m :: m in Hits(rule, claims, nameAttr) <==>
      m == rule.target && exists j :: 0 <= j < |claims| && Matches(rule, claims[j], nameAttr)
  {
    if |claims| > 0 {
      var init := claims[..|claims| - 1];
      HitsMembership(rule, init, nameAttr);
      assert forall j :: 0 <= j < |init| ==> init[j] == claims[j];
    }
  }

  /**
   * `m` is in the target list exactly when some rule has target `m` and
   * some claim's token equals that rule's `org`.
   */
  lemma {:induction false} TargetsMembership(rules: seq<Rule>, claims: seq<Json>, nameAttr: string)
    ensures forall m :: m in Targets(rules, claims, nameAttr) <==> Selects(rules, claims, nameAttr, m)
  {
    if |rules| > 0 {
      var init := rules[..|rules| - 1];
      var last := rules[|rules| - 1];
      TargetsMembership(init, claims, nameAttr);
      HitsMembership(last, claims, nameAttr);
      assert forall i :: 0 <= i < |init| ==> init[i] == rules[i];
      assert Targets(rules, claims, nameAttr) == Targets(init, claims, nameAttr) + Hits(last, claims, nameAttr);
      forall m | m in Targets(rules, claims, nameAttr)
        ensures Selects(rules, claims, nameAttr, m)
      {
        if m in Hits(last, claims, nameAttr) {
          var j :| 0 <= j < |claims| && Matches(last, claims[j], nameAttr);
          assert rules[|rules| - 1].target == m && Matches(rules[|rules| - 1], claims[j], nameAttr);
        } else {
          assert m in Targets(init, claims, nameAttr);
          var i, j :| 0 <= i < |init| && 0 <= j < |claims| && init[i].target == m && Matches(init[i], claims[j], nameAttr);
          assert rules[i].target == m && Matches(rules[i], claims[j], nameAttr);
        }
      }
      forall m | Selects(rules, claims, nameAttr, m)
        ensures m in Targets(rules, claims, nameAttr)
      {
        var i, j :| 0 <= i < |rules| && 0 <= j < |claims| && rules[i].target == m && Matches(rules[i], claims[j], nameAttr);
        if i < |init| {
          assert init[i].target == m && Matches(init[i], claims[j], nameAttr);
        } else {
          assert m in Hits(last, claims, nameAttr);
        }
      }
    }
  }

  /**
   * `Array#delete`: every occurrence of `x` is gone and every other entry
   * is still there (`RemoveAllCounts` and `RemoveAllAppend` add how often
   * and in what order).
   */
  function RemoveAll(list: seq<Option<string>>, x: Option<string>): (r: seq<Option<string>>)
    ensures forall y :: y in r <==> y in list && y != x
  {
    if |list| == 0 then []
    else
      assert list == [list[0]] + list[1..];
      (if list[0] == x then [] else [list[0]]) + RemoveAll(list[1..], x)
  }

  /** `RemoveAll` on a list split into its first entry and the rest. */
  lemma RemoveAllCons(head: Option<string>, tail: seq<Option<string>>, x: Option<string>)
    ensures RemoveAll([head] + tail, x) == (if head == x then [] else [head]) + RemoveAll(tail, x)
  {
    assert ([head] + tail)[0] == head && ([head] + tail)[1..] == tail;
  }

  /**
   * Every entry other than `x` is kept as often as it occurred, and a
   * list without `x` is unchanged.
   */
  lemma {:induction false} RemoveAllCounts(list: seq<Option<string>>, x: Option<string>)
    ensures multiset(RemoveAll(list, x)) == multiset(list)[x := 0]
    ensures x !in list ==> RemoveAll(list, x) == list
  {
    if |list| > 0 {
      RemoveAllCounts(list[1..], x);
      assert list == [list[0]] + list[1..];
    }
  }

  /**
   * The kept entries stay in their order: deleting from a list is
   * deleting from each of its parts and putting them back together.
   */
  lemma {:induction false} RemoveAllAppend(a: seq<Option<string>>, b: seq<Option<string>>, x: Option<string>)
    ensures RemoveAll(a + b, x) == RemoveAll(a, x) + RemoveAll(b, x)
  {
    if |a| == 0 {
      assert a + b == b;
    } else {
      var tail := a[1..];
      assert a == [a[0]] + tail;
      assert a + b == [a[0]] + (tail + b);
      RemoveAllAppend(tail, b, x);
      RemoveAllCons(a[0], tail + b, x);
      RemoveAllCons(a[0], tail, x);
    }
  }

  /** An `org=match` entry parses to that pair. */
  lemma ParseRulePair(org: string, target: string)
    requires '=' !in org && '=' !in target && target != ""
    ensures ParseRule(org + "=" + target) == Rule(Some(org), Some(target))
  {
    SplitAllFirstField(org, '=', target);
    SplitAllNoSeparator(target, '=');
  }

  /**
   * An entry with no `=` is inert: it has no target, so no claim can add a
   * group through it.
   */
  lemma ParseRuleWithoutSeparator(entry: string)
    requires '=' !in entry
    ensures ParseRule(entry) == Rule(if entry == "" then None else Some(entry), None)
  {
    SplitAllNoSeparator(entry, '=');
  }

  /**
   * Entries are parsed one by one: the rules of a comma-joined string are
   * the rules of its entries, so a malformed entry leaves the others alone.
   */
  lemma ParseRulesOfEntries(entries: seq<string>)
    requires |entries| >= 1 && entries[|entries| - 1] != ""
    requires forall k :: 0 <= k < |entries| ==> ',' !in entries[k]
    ensures |ParseRules(Join(entries, ','))| == |entries|
    ensures forall k :: 0 <= k < |entries| ==> ParseRules(Join(entries, ','))[k] == ParseRule(entries[k])
  {
    SplitAllJoin(entries, ',');
  }
}
