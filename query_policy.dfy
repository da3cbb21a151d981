/**
 * Pre-execution policy checks on the query text (HiveServiceImpl and
 * OldPrestoServiceImpl): disallowed leading keywords, secret substrings, and
 * required conditions of the form `table:key1|key2,table2:key3`.
 * Each check walks its configured list in order and stops at the first
 * violation; the services store the message as an error record and throw.
 */
module QueryPolicy {
  import opened Wrappers
  import opened JavaStrings

  /**
   * Result of the checks. Malformed stands for the
   * ArrayIndexOutOfBoundsException that a required-condition entry without
   * a table or without a ':' raises; no error record is stored for it.
   */
  datatype Verdict = Pass | Reject(message: string) | Malformed(condition: string)

  /** Per-datasource policy lists, in configuration order. */
  datatype Policy = Policy(disallowed: seq<string>, secret: seq<string>, required: seq<string>)

  /** The one message of a secret-keyword rejection; it never depends on the keyword. */
  const SecretMessage: string := "query error occurs"

  function DisallowedMessage(keyword: string, datasource: string): string {
    "query contains " + keyword + ". This is the disallowed keywords in " + datasource
  }

  function RequiredMessage(table: string, key: string): string {
    "If you query " + table + ", you must specify " + key + " in where clause"
  }

  /** The text disallowed keywords are matched against: trimmed, then lower-cased. */
  function Normalized(query: string): string {
    ToLower(Trim(query))
  }

  /** Position of the first element satisfying p: the shape of each `for` loop that stops at its first hit. */
  function FirstIndex(p: string -> bool, xs: seq<string>): (r: Option<nat>)
    ensures r.None? <==> forall i :: 0 <= i < |xs| ==> !p(xs[i])
    ensures r.Some? ==> r.value < |xs| && p(xs[r.value]) && forall j :: 0 <= j < r.value ==> !p(xs[j])
  {
    if xs == [] then None
    else if p(xs[0]) then Some(0)
    else
      match FirstIndex(p, xs[1..])
      case None => None
      case Some(i) => Some(i + 1)
  }

  /** checkDisallowedKeyword: the first configured keyword that starts the normalized query. */
  function CheckDisallowed(query: string, keywords: seq<string>, datasource: string): (r: Option<string>)
    ensures r.None? <==> forall i :: 0 <= i < |keywords| ==> !StartsWith(Normalized(query), keywords[i])
    ensures r.Some? ==>
      exists i :: 0 <= i < |keywords| && StartsWith(Normalized(query), keywords[i]) &&
        (forall j :: 0 <= j < i ==> !StartsWith(Normalized(query), keywords[j])) &&
        r.value == DisallowedMessage(keywords[i], datasource)
  {
    var text := Normalized(query);
    match FirstIndex(k => StartsWith(text, k), keywords)
    case None => None
    case Some(i) => Some(DisallowedMessage(keywords[i], datasource))
  }

  /**
   * Keywords are compared as configured, against a lower-cased query, so a
   * keyword holding an upper-case letter never rejects anything.
   */
  lemma UpperCaseKeywordIgnored(query: string, keywords: seq<string>, datasource: string)
    requires forall i :: 0 <= i < |keywords| ==> HasUpperCase(keywords[i])
    ensures CheckDisallowed(query, keywords, datasource).None?
  {
    forall i | 0 <= i < |keywords|
      ensures !StartsWith(Normalized(query), keywords[i])
    {
      UpperCaseNeverPrefixesLowered(Trim(query), keywords[i]);
    }
  }

  /** checkSecretKeyword: case-sensitive substring match, with a message that never names the keyword. */
  function CheckSecret(query: string, keywords: seq<string>): (r: Option<string>)
    ensures r.Some? <==> exists i :: 0 <= i < |keywords| && Contains(query, keywords[i])
    ensures r.Some? ==> r.value == SecretMessage
  {
    match FirstIndex(k => Contains(query, k), keywords)
    case None => None
    case Some(_) => Some(SecretMessage)
  }

  /** A condition `table:k1|k2` split at ':'. */
  function Parts(condition: string): seq<string> {
    Split(condition, ':')
  }

  /** `condition.split(":")[0]`, or "" when that index does not exist. */
  function TableOf(condition: string): string {
    var p := Parts(condition);
    if |p| > 0 then p[0] else ""
  }

  /** `condition.split(":")[1].split("\\|")`, or no key when that index does not exist. */
  function KeysOf(condition: string): seq<string> {
    var p := Parts(condition);
    if |p| > 1 then Split(p[1], '|') else []
  }

  /** Every condition of every configured rule, each rule split at ','. */
  function Conditions(rules: seq<string>): (r: seq<string>)
    ensures forall c :: c in r <==> exists i :: 0 <= i < |rules| && c in Split(rules[i], ',')
  {
    if rules == [] then []
    else
      var rest := Conditions(rules[1..]);
      assert forall i, c :: 0 <= i < |rules| && c in Split(rules[i], ',') ==> c in Split(rules[0], ',') + rest by {
        forall i, c | 0 <= i < |rules| && c in Split(rules[i], ',')
          ensures c in Split(rules[0], ',') + rest
        {
          if i > 0 {
            assert rules[1..][i - 1] == rules[i];
          }
        }
      }
      assert forall c :: c in rest ==> exists i :: 0 <= i < |rules| && c in Split(rules[i], ',') by {
        forall c | c in rest
          ensures exists i :: 0 <= i < |rules| && c in Split(rules[i], ',')
        {
          var i :| 0 <= i < |rules[1..]| && c in Split(rules[1..][i], ',');
          assert rules[i + 1] == rules[1..][i];
        }
      }
      Split(rules[0], ',') + rest
  }

  /** The conditions of consecutive rules are the conditions of each, in order. */
  lemma {:induction false} ConditionsAppend(a: seq<string>, b: seq<string>)
    ensures Conditions(a + b) == Conditions(a) + Conditions(b)
  {
    if a != [] {
      assert (a + b)[0] == a[0] && (a + b)[1..] == a[1..] + b;
      ConditionsAppend(a[1..], b);
      assert Conditions(a + b) == Split(a[0], ',') + (Conditions(a[1..]) + Conditions(b));
    } else {
      assert a + b == b;
    }
  }

  /** The conditions of one rule sit, in their own order, after those of every earlier rule and before those of every later one. */
  lemma ConditionsInOrder(before: seq<string>, rule: string, after: seq<string>)
    ensures Conditions(before + [rule] + after) == Conditions(before) + Split(rule, ',') + Conditions(after)
  {
    assert [rule][0] == rule && [rule][1..] == [];
    var single := Conditions([rule]);
    assert single == Split([rule][0], ',') + Conditions([rule][1..]);
    assert Conditions([rule][1..]) == [];
    assert single == Split(rule, ',');
    ConditionsAppend(before, [rule]);
    ConditionsAppend(before + [rule], after);
  }

  /**
   * A configured condition written `table:key1|key2|...` (no piece empty or
   * holding a separator) is read back as that table and those keys, and it
   * admits exactly the queries that, when they mention the table, name every key.
   */
  lemma WellFormedCondition(query: string, table: string, keys: seq<string>, exempt: bool)
    requires table != "" && ':' !in table
    requires |keys| > 0 && forall i :: 0 <= i < |keys| ==> keys[i] != "" && ':' !in keys[i] && '|' !in keys[i]
    ensures TableOf(table + ":" + Join(keys, '|')) == table
    ensures KeysOf(table + ":" + Join(keys, '|')) == keys
    ensures Admits(query, table + ":" + Join(keys, '|'), exempt) <==>
      (!exempt && Contains(query, table) ==> forall i :: 0 <= i < |keys| ==> Contains(query, keys[i]))
  {
    var joined := Join(keys, '|');
    JoinAvoids(keys, '|', ':');
    assert joined != "" by {
      if |keys| > 1 {
        assert |joined| >= |keys[0]|;
      }
    }
    assert Join([table, joined], ':') == table + ":" + joined;
    SplitJoin([table, joined], ':');
    SplitJoin(keys, '|');
    var cond := table + ":" + joined;
    assert Parts(cond) == [table, joined];
    assert KeysOf(cond) == keys;
    assert forall k :: k in keys <==> exists i :: 0 <= i < |keys| && keys[i] == k;
  }

  /** A query the condition does not stop: the condition names a table, and if
      the query mentions that table (and is not exempt) every key occurs. */
  predicate Admits(query: string, condition: string, exempt: bool) {
    |Parts(condition)| > 0 &&
    (!exempt && Contains(query, TableOf(condition)) ==>
      |Parts(condition)| > 1 && forall k :: k in KeysOf(condition) ==> Contains(query, k))
  }

  /** The query mentions the condition's table but not the key k it requires. */
  predicate Violates(query: string, condition: string, k: string) {
    |Parts(condition)| > 1 && Contains(query, TableOf(condition)) && k in KeysOf(condition) && !Contains(query, k)
  }

  /** The innermost loop: the first key absent from the query. */
  function CheckKeys(query: string, table: string, keys: seq<string>): (r: Option<string>)
    ensures r.None? <==> forall i :: 0 <= i < |keys| ==> Contains(query, keys[i])
    ensures r.Some? ==>
      exists i :: 0 <= i < |keys| && !Contains(query, keys[i]) &&
        (forall j :: 0 <= j < i ==> Contains(query, keys[j])) &&
        r.value == RequiredMessage(table, keys[i])
  {
    match FirstIndex(k => !Contains(query, k), keys)
    case None => None
    case Some(i) => Some(RequiredMessage(table, keys[i]))
  }

  /** What the loop does at a condition that stops it. */
  function ConditionVerdict(query: string, condition: string, exempt: bool): (r: Verdict)
    requires !Admits(query, condition, exempt)
    ensures !r.Pass?
    ensures r.Malformed? <==> |Parts(condition)| < 2
    ensures r.Reject? ==>
      !exempt && exists k :: Violates(query, condition, k) && r.message == RequiredMessage(TableOf(condition), k)
    ensures r.Reject? ==>
      var keys := KeysOf(condition);
      exists i :: 0 <= i < |keys| && !Contains(query, keys[i]) &&
        (forall j :: 0 <= j < i ==> Contains(query, keys[j])) &&
        r.message == RequiredMessage(TableOf(condition), keys[i])
    ensures r.Malformed? ==> r.condition == condition
  {
    var parts := Parts(condition);
    if |parts| < 2 then Malformed(condition)
    else
      var keys := Split(parts[1], '|');
      match CheckKeys(query, parts[0], keys)
      case Some(m) =>
        assert exists i :: 0 <= i < |keys| && Violates(query, condition, keys[i]) && m == RequiredMessage(parts[0], keys[i]);
        Reject(m)
      case None => assert false; Pass
  }

  /** The loop over the conditions, in order: the first condition that stops the query decides. */
  function CheckConditions(query: string, conditions: seq<string>, exempt: bool): (r: Verdict)
    ensures r.Pass? <==> forall i :: 0 <= i < |conditions| ==> Admits(query, conditions[i], exempt)
    ensures !r.Pass? ==>
      exists i :: 0 <= i < |conditions| && !Admits(query, conditions[i], exempt) &&
        (forall j :: 0 <= j < i ==> Admits(query, conditions[j], exempt)) &&
        r == ConditionVerdict(query, conditions[i], exempt)
  {
    match FirstIndex(c => !Admits(query, c, exempt), conditions)
    case None => Pass
    case Some(i) => ConditionVerdict(query, conditions[i], exempt)
  }

  /**
   * checkRequiredCondition: each configured rule split at ',', each condition
   * checked in turn. A query that mentions no configured table passes; a
   * rejection names a mentioned table and one of its keys the query lacks.
   */
  function CheckRequired(query: string, rules: seq<string>, exempt: bool): (r: Verdict)
    ensures r.Pass? <==> forall c :: c in Conditions(rules) ==> Admits(query, c, exempt)
    ensures r.Reject? ==>
      !exempt && exists c, k :: c in Conditions(rules) && Violates(query, c, k) && r.message == RequiredMessage(TableOf(c), k)
    ensures r.Malformed? ==> r.condition in Conditions(rules) && !Admits(query, r.condition, exempt)
    ensures !r.Pass? ==>
      var conditions := Conditions(rules);
      exists i :: 0 <= i < |conditions| && !Admits(query, conditions[i], exempt) &&
        (forall j :: 0 <= j < i ==> Admits(query, conditions[j], exempt)) &&
        r == ConditionVerdict(query, conditions[i], exempt)
  {
    CheckConditions(query, Conditions(rules), exempt)
  }

  /** HiveServiceImpl exempts statements starting with SHOW or DESCRIBE (case-sensitive). */
  predicate HiveExempt(query: string) {
    StartsWith(query, "SHOW") || StartsWith(query, "DESCRIBE")
  }

  /** OldPrestoServiceImpl exempts only statements starting with the comment marker the UI prepends. */
  predicate PrestoExempt(query: string, marker: string) {
    StartsWith(query, marker)
  }

  /** HiveServiceImpl.getHiveQueryResult: disallowed, then secret, then required; the first failure decides. */
  function ValidateHive(query: string, policy: Policy, datasource: string): (r: Verdict)
    ensures r.Pass? <==>
      (forall i :: 0 <= i < |policy.disallowed| ==> !StartsWith(Normalized(query), policy.disallowed[i])) &&
      (forall i :: 0 <= i < |policy.secret| ==> !Contains(query, policy.secret[i])) &&
      (forall c :: c in Conditions(policy.required) ==> Admits(query, c, HiveExempt(query)))
  {
    match CheckDisallowed(query, policy.disallowed, datasource)
    case Some(m) => Reject(m)
    case None =>
      match CheckSecret(query, policy.secret)
      case Some(m) => Reject(m)
      case None => CheckRequired(query, policy.required, HiveExempt(query))
  }

  /** A disallowed keyword decides first: the rejection names the first keyword that starts the query. */
  lemma HiveDisallowedFirst(query: string, policy: Policy, datasource: string)
    requires exists i :: 0 <= i < |policy.disallowed| && StartsWith(Normalized(query), policy.disallowed[i])
    ensures exists i :: 0 <= i < |policy.disallowed| && StartsWith(Normalized(query), policy.disallowed[i]) &&
                        ValidateHive(query, policy, datasource) == Reject(DisallowedMessage(policy.disallowed[i], datasource))
  {
    var d := CheckDisallowed(query, policy.disallowed, datasource);
    assert d.Some?;
    assert ValidateHive(query, policy, datasource) == Reject(d.value);
  }

  /** With no disallowed keyword, a secret decides before any condition. */
  lemma HiveSecretSecond(query: string, policy: Policy, datasource: string)
    requires CheckDisallowed(query, policy.disallowed, datasource).None?
    requires exists i :: 0 <= i < |policy.secret| && Contains(query, policy.secret[i])
    ensures ValidateHive(query, policy, datasource) == Reject(SecretMessage)
  {
    assert CheckSecret(query, policy.secret).Some?;
  }

  /** A SHOW or DESCRIBE statement can only be rejected by a keyword, never by a condition. */
  lemma HiveExemptOnlyKeywords(query: string, policy: Policy, datasource: string)
    requires HiveExempt(query) && ValidateHive(query, policy, datasource).Reject?
    ensures var m := ValidateHive(query, policy, datasource).message;
      m == SecretMessage || exists k :: k in policy.disallowed && m == DisallowedMessage(k, datasource)
  {
    var d := CheckDisallowed(query, policy.disallowed, datasource);
    if d.Some? {
      var i :| 0 <= i < |policy.disallowed| && d.value == DisallowedMessage(policy.disallowed[i], datasource);
      assert policy.disallowed[i] in policy.disallowed;
    }
  }

  /** OldPrestoServiceImpl.getPrestoQueryResult: secret, then required; there is no disallowed-keyword check. */
  function ValidatePresto(query: string, secret: seq<string>, required: seq<string>, marker: string): (r: Verdict)
    ensures r.Pass? <==>
      (forall i :: 0 <= i < |secret| ==> !Contains(query, secret[i])) &&
      (forall c :: c in Conditions(required) ==> Admits(query, c, PrestoExempt(query, marker)))
    ensures (exists i :: 0 <= i < |secret| && Contains(query, secret[i])) ==> r == Reject(SecretMessage)
    ensures PrestoExempt(query, marker) && r.Reject? ==> r.message == SecretMessage
  {
    match CheckSecret(query, secret)
    case Some(m) => Reject(m)
    case None => CheckRequired(query, required, PrestoExempt(query, marker))
  }
}
