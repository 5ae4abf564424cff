/** Host firewall rules as the policy asks for them, as RFW lists them, and as the agent
    remembers owning them. */
module RfwRules {
  import opened Text
  import opened Wrappers

  datatype Rule = Rule(
    key: string, priority: int, direction: string, protocol: string, action: string, enabled: bool,
    portStart: nat, portEnd: Option<nat>, ipType: string, ip: string, countries: seq<string>)

  /** A listed rule; an omitted end port is listed as 0. */
  datatype Raw = Raw(
    priority: int, direction: string, protocol: string, action: string, enabled: bool,
    portStart: nat, portEnd: nat, ipType: string, ip: string, countries: seq<string>)

  /** What is sent to create a rule, which is also its fingerprint. */
  datatype Payload = Payload(
    priority: int, direction: string, protocol: string, action: string, enabled: bool, portStart: nat,
    portEnd: Option<nat>, ipType: string, ip: Option<string>, countries: Option<seq<string>>)

  datatype Managed = Managed(key: string, id: int, fp: Payload)

  function Fingerprint(r: Rule): Payload {
    Payload(r.priority, r.direction, r.protocol, r.action, r.enabled, r.portStart, r.portEnd, r.ipType,
            if r.ipType == "cidr" then Some(r.ip) else None,
            if r.ipType == "geoip" then Some(r.countries) else None)
  }

  function CountrySet(c: seq<string>): set<string> {
    set i | 0 <= i < |c| :: Upper(Trim(c[i]))
  }

  predicate RawMatches(raw: Raw, want: Rule) {
    && raw.priority == want.priority
    && EqIgnoreCase(raw.direction, want.direction)
    && EqIgnoreCase(raw.protocol, want.protocol)
    && EqIgnoreCase(raw.action, want.action)
    && raw.enabled == want.enabled
    && raw.portStart == want.portStart
    && (if raw.portEnd == raw.portStart then want.portEnd.None? || want.portEnd == Some(want.portStart)
        else want.portEnd == Some(raw.portEnd))
    && EqIgnoreCase(raw.ipType, want.ipType)
    && (want.ipType == "cidr" ==> Trim(raw.ip) == want.ip)
    && (want.ipType == "geoip" ==> CountrySet(raw.countries) == CountrySet(want.countries))
  }

  /** A listing that spells every field out, a single port as a range of one. */
  function Echo(want: Rule): Raw {
    Raw(want.priority, want.direction, want.protocol, want.action, want.enabled, want.portStart,
        if want.portEnd.Some? then want.portEnd.value else want.portStart, want.ipType, want.ip, want.countries)
  }

  /** A rule listed as it was asked for is recognised, if and only if its CIDR carries no
      surrounding space (normalisation removes it). */
  lemma EchoMatches(want: Rule)
    ensures RawMatches(Echo(want), want) <==> (want.ipType == "cidr" ==> Trim(want.ip) == want.ip)
  {
  }

  /** The row the agent itself adds for a rule it has just created: an omitted end port
      is 0. */
  function RawOf(r: Rule): Raw {
    Raw(r.priority, r.direction, r.protocol, r.action, r.enabled, r.portStart,
        if r.portEnd.Some? then r.portEnd.value else 0, r.ipType, r.ip, r.countries)
  }

  /** It is recognised, as is a listing of that form, if and only if the rule names an end
      port or starts at port 0, and its CIDR carries no surrounding space. */
  lemma OmittedEndPort(want: Rule)
    ensures RawMatches(RawOf(want), want)
         <==> (want.portEnd.Some? || want.portStart == 0) && (want.ipType == "cidr" ==> Trim(want.ip) == want.ip)
  {
  }

  /** Equal fingerprints ask for the same rule: whatever listing matches one matches the
      other. */
  lemma FingerprintDecides(a: Rule, b: Rule, raw: Raw)
    requires Fingerprint(a) == Fingerprint(b)
    ensures RawMatches(raw, a) <==> RawMatches(raw, b)
  {
  }

  predicate UniqueKeys(rules: seq<Rule>) {
    forall i, j :: 0 <= i < j < |rules| ==> rules[i].key != rules[j].key
  }

  predicate UniqueIds(m: seq<Managed>) {
    forall i, j :: 0 <= i < j < |m| ==> m[i].id != m[j].id
  }

  ghost function Ids(m: seq<Managed>): set<int> {
    set i | 0 <= i < |m| :: m[i].id
  }

  /** Rule `id` is remembered for `want` as it is now, and is live and matching. */
  predicate Serves(m: Managed, want: Rule, table: map<int, Raw>) {
    m.key == want.key && m.fp == Fingerprint(want) && m.id in table && RawMatches(table[m.id], want)
  }

  // ---------- which rules a reconciliation keeps ----------

  /** First remembered rule from `j` on that serves `want` and is not taken yet. */
  function FirstKept(m: seq<Managed>, j: nat, want: Rule, actual: map<int, Raw>, selected: set<int>): (r: Option<nat>)
    requires j <= |m|
    ensures r.Some? ==> j <= r.value < |m| && m[r.value].id !in selected && Serves(m[r.value], want, actual)
    ensures r.Some? ==> forall i :: j <= i < r.value ==> m[i].id in selected || !Serves(m[i], want, actual)
    ensures r.None? ==> forall i :: j <= i < |m| ==> m[i].id in selected || !Serves(m[i], want, actual)
    decreases |m| - j
  {
    if j == |m| then None
    else if m[j].id !in selected && Serves(m[j], want, actual) then Some(j)
    else FirstKept(m, j + 1, want, actual, selected)
  }

  /** The ids kept when every rule from `k` on is served already; None if one is not. */
  function KeepAll(rules: seq<Rule>, k: nat, m: seq<Managed>, actual: map<int, Raw>, selected: set<int>): Option<set<int>>
    requires k <= |rules|
    decreases |rules| - k
  {
    if k == |rules| then Some(selected)
    else match FirstKept(m, 0, rules[k], actual, selected)
      case None => None
      case Some(j) => KeepAll(rules, k + 1, m, actual, selected + {m[j].id})
  }

  /** Nothing to create and nothing live to delete. */
  ghost predicate Idle(rules: seq<Rule>, m: seq<Managed>, table: map<int, Raw>) {
    var kept := KeepAll(rules, 0, m, table, {});
    kept.Some? && forall i :: 0 <= i < |m| ==> m[i].id in kept.value || m[i].id !in table
  }

  // ---------- readback ----------

  datatype Sync = Manual | InSync | Drifted | Orphaned | Missing

  function OwnerOf(m: seq<Managed>, id: int): (r: Option<nat>)
    ensures r.Some? ==> r.value < |m| && m[r.value].id == id
    ensures r.None? ==> forall i :: 0 <= i < |m| ==> m[i].id != id
  {
    if m == [] then None
    else if m[|m| - 1].id == id then Some((|m| - 1) as nat)
    else OwnerOf(m[..|m| - 1], id)
  }

  function FirstOwner(m: seq<Managed>, j: nat, key: string): (r: Option<nat>)
    requires j <= |m|
    ensures r.Some? ==> j <= r.value < |m| && m[r.value].key == key && forall i :: j <= i < r.value ==> m[i].key != key
    ensures r.None? ==> forall i :: j <= i < |m| ==> m[i].key != key
    decreases |m| - j
  {
    if j == |m| then None
    else if m[j].key == key then Some(j)
    else FirstOwner(m, j + 1, key)
  }

  function WantOf(rules: seq<Rule>, key: string): (r: Option<nat>)
    ensures r.Some? ==> r.value < |rules| && rules[r.value].key == key
    ensures r.None? ==> forall i :: 0 <= i < |rules| ==> rules[i].key != key
  {
    if rules == [] then None
    else if rules[|rules| - 1].key == key then Some((|rules| - 1) as nat)
    else WantOf(rules[..|rules| - 1], key)
  }

  /** State of a listed rule. */
  function RowSync(rules: seq<Rule>, m: seq<Managed>, id: int, raw: Raw): Sync {
    match OwnerOf(m, id)
    case None => Manual
    case Some(i) =>
      match WantOf(rules, m[i].key)
      case None => Orphaned
      case Some(k) =>
        if m[i].fp == Fingerprint(rules[k]) && RawMatches(raw, rules[k]) then InSync else Drifted
  }

  /** State of a rule asked for. */
  function WantSync(m: seq<Managed>, want: Rule, table: map<int, Raw>): Sync {
    match FirstOwner(m, 0, want.key)
    case None => Missing
    case Some(i) =>
      if m[i].id !in table then Missing
      else if m[i].fp == Fingerprint(want) && RawMatches(table[m[i].id], want) then InSync
      else Drifted
  }

  /** A listed rule is shown as manual if nobody remembers it, as orphaned if it is remembered
      for a key that is not asked for, as in sync if its owner remembers it for what is asked
      for now and it matches, and as drifted otherwise. */
  lemma RowSyncMeans(rules: seq<Rule>, m: seq<Managed>, id: int, raw: Raw, i: nat, k: nat)
    requires UniqueKeys(rules) && UniqueIds(m)
    ensures RowSync(rules, m, id, raw) == Manual <==> id !in Ids(m)
    ensures i < |m| && m[i].id == id ==>
      (RowSync(rules, m, id, raw) == Orphaned <==> forall j :: 0 <= j < |rules| ==> rules[j].key != m[i].key)
    ensures i < |m| && m[i].id == id && k < |rules| && rules[k].key == m[i].key ==>
      RowSync(rules, m, id, raw) == if Serves(m[i], rules[k], map[id := raw]) then InSync else Drifted
  {
    hide RawMatches, Fingerprint;
  }

  /** A rule asked for is missing unless the first owner of its key is live, in sync if that
      one serves it, and drifted otherwise. */
  lemma WantSyncMeans(m: seq<Managed>, want: Rule, table: map<int, Raw>, i: nat)
    ensures (forall j :: 0 <= j < |m| ==> m[j].key != want.key) ==> WantSync(m, want, table) == Missing
    ensures i < |m| && m[i].key == want.key && (forall j :: 0 <= j < i ==> m[j].key != want.key) ==>
      WantSync(m, want, table) == if m[i].id !in table then Missing else if Serves(m[i], want, table) then InSync else Drifted
  {
    hide RawMatches, Fingerprint;
  }

  /** Readback finds no drift and nothing missing. */
  ghost predicate ReadsInSync(rules: seq<Rule>, m: seq<Managed>, table: map<int, Raw>) {
    && (forall id :: id in table ==> RowSync(rules, m, id, table[id]) in {Manual, InSync})
    && (forall k :: 0 <= k < |rules| ==> WantSync(m, rules[k], table) == InSync)
  }

  ghost predicate IsServed(want: Rule, m: seq<Managed>, table: map<int, Raw>) {
    exists i :: 0 <= i < |m| && Serves(m[i], want, table)
  }

  ghost predicate ServesOne(e: Managed, rules: seq<Rule>, table: map<int, Raw>) {
    exists k :: 0 <= k < |rules| && Serves(e, rules[k], table)
  }

  /** One owned, live, matching rule per rule asked for, and no other owned rule. */
  ghost predicate Settled(rules: seq<Rule>, m: seq<Managed>, table: map<int, Raw>) {
    && (forall k :: 0 <= k < |rules| ==> IsServed(rules[k], m, table))
    && (forall i :: 0 <= i < |m| ==> ServesOne(m[i], rules, table))
    && (forall i, j :: 0 <= i < j < |m| ==> m[i].key != m[j].key)
  }

  lemma SettledRow(rules: seq<Rule>, m: seq<Managed>, table: map<int, Raw>, id: int)
    requires UniqueKeys(rules) && Settled(rules, m, table) && id in table
    ensures RowSync(rules, m, id, table[id]) in {Manual, InSync}
  {
    hide RawMatches, Fingerprint;
    var o := OwnerOf(m, id);
    if o.Some? {
      assert ServesOne(m[o.value], rules, table);
      var k :| 0 <= k < |rules| && Serves(m[o.value], rules[k], table);
      SameWant(rules, k);
    }
  }

  lemma SameWant(rules: seq<Rule>, k: nat)
    requires UniqueKeys(rules) && k < |rules|
    ensures WantOf(rules, rules[k].key) == Some(k)
  {
    hide WantOf;
    var w := WantOf(rules, rules[k].key);
    assert w.Some?;
  }

  /** A settled state reads back in sync. */
  lemma SettledReadsInSync(rules: seq<Rule>, m: seq<Managed>, table: map<int, Raw>)
    requires UniqueKeys(rules) && Settled(rules, m, table)
    ensures ReadsInSync(rules, m, table)
  {
    hide RawMatches, Fingerprint, RowSync;
    forall id | id in table ensures RowSync(rules, m, id, table[id]) in {Manual, InSync} {
      SettledRow(rules, m, table, id);
    }
    forall k | 0 <= k < |rules| ensures WantSync(m, rules[k], table) == InSync {
      hide FirstOwner;
      assert IsServed(rules[k], m, table);
      var i :| 0 <= i < |m| && Serves(m[i], rules[k], table);
      var f := FirstOwner(m, 0, rules[k].key);
      assert f.Some? && f.value == i;
    }
  }

  /** Live remembered rules have different keys. */
  ghost predicate LiveKeysUnique(m: seq<Managed>, table: map<int, Raw>) {
    forall i, j :: 0 <= i < j < |m| && m[i].id in table && m[j].id in table ==> m[i].key != m[j].key
  }

  /** The id remembered first for a rule, and those of the first `n` rules. */
  function FirstId(m: seq<Managed>, want: Rule): int {
    match FirstOwner(m, 0, want.key)
    case None => 0
    case Some(i) => m[i].id
  }

  ghost function FirstIds(rules: seq<Rule>, m: seq<Managed>, n: nat): set<int>
    requires n <= |rules|
  {
    set j | 0 <= j < n :: FirstId(m, rules[j])
  }

  lemma FirstServes(m: seq<Managed>, want: Rule, table: map<int, Raw>)
    requires WantSync(m, want, table) == InSync
    ensures FirstOwner(m, 0, want.key).Some?
    ensures Serves(m[FirstOwner(m, 0, want.key).value], want, table)
  {
    hide RawMatches, Fingerprint;
  }

  lemma FirstIsFirstKept(rules: seq<Rule>, m: seq<Managed>, table: map<int, Raw>, k: nat)
    requires UniqueKeys(rules) && UniqueIds(m) && k < |rules|
    requires forall j :: 0 <= j <= k ==> WantSync(m, rules[j], table) == InSync
    ensures FirstKept(m, 0, rules[k], table, FirstIds(rules, m, k)) == FirstOwner(m, 0, rules[k].key)
  {
    hide RawMatches, Fingerprint, FirstKept, FirstOwner, WantSync;
    FirstServes(m, rules[k], table);
    var f := FirstOwner(m, 0, rules[k].key).value;
    if m[f].id in FirstIds(rules, m, k) {
      var j :| 0 <= j < k && m[f].id == FirstId(m, rules[j]);
      FirstServes(m, rules[j], table);
    }
  }

  lemma {:induction false} KeepsFirst(rules: seq<Rule>, m: seq<Managed>, table: map<int, Raw>, k: nat)
    requires UniqueKeys(rules) && UniqueIds(m) && k <= |rules|
    requires forall j :: 0 <= j < |rules| ==> WantSync(m, rules[j], table) == InSync
    ensures KeepAll(rules, k, m, table, FirstIds(rules, m, k)) == Some(FirstIds(rules, m, |rules|))
    decreases |rules| - k
  {
    hide RawMatches, Fingerprint, FirstKept, FirstOwner, WantSync;
    if k < |rules| {
      FirstIsFirstKept(rules, m, table, k);
      FirstServes(m, rules[k], table);
      assert FirstIds(rules, m, k) + {FirstId(m, rules[k])} == FirstIds(rules, m, k + 1);
      KeepsFirst(rules, m, table, k + 1);
    }
  }

  lemma LiveIsFirst(rules: seq<Rule>, m: seq<Managed>, table: map<int, Raw>, i: nat)
    requires UniqueIds(m) && ReadsInSync(rules, m, table) && LiveKeysUnique(m, table)
    requires i < |m| && m[i].id in table
    ensures m[i].id in FirstIds(rules, m, |rules|)
  {
    hide RawMatches, Fingerprint, FirstOwner, WantSync, WantOf, OwnerOf;
    var o := OwnerOf(m, m[i].id);
    assert o == Some(i);
    assert RowSync(rules, m, m[i].id, table[m[i].id]) in {Manual, InSync};
    var k := WantOf(rules, m[i].key).value;
    FirstServes(m, rules[k], table);
    var f := FirstOwner(m, 0, rules[k].key).value;
    assert f == i;
    assert m[i].id == FirstId(m, rules[k]);
  }

  /** When readback says in sync, the next reconciliation sends no request if and only if
      no two live remembered rules share a key. */
  lemma InSyncIsIdleIff(rules: seq<Rule>, m: seq<Managed>, table: map<int, Raw>)
    requires UniqueKeys(rules) && UniqueIds(m) && ReadsInSync(rules, m, table)
    ensures Idle(rules, m, table) <==> LiveKeysUnique(m, table)
  {
    hide RawMatches, Fingerprint, FirstOwner, WantSync, KeepAll, RowSync;
    assert FirstIds(rules, m, 0) == {};
    KeepsFirst(rules, m, table, 0);
    if LiveKeysUnique(m, table) {
      forall i | 0 <= i < |m| && m[i].id in table ensures m[i].id in FirstIds(rules, m, |rules|) {
        LiveIsFirst(rules, m, table, i);
      }
    }
    if Idle(rules, m, table) {
      forall i, j | 0 <= i < j < |m| && m[i].id in table && m[j].id in table ensures m[i].key != m[j].key {
        FirstsDiffer(rules, m, table, i, j);
      }
    }
  }

  lemma FirstsDiffer(rules: seq<Rule>, m: seq<Managed>, table: map<int, Raw>, i: nat, j: nat)
    requires UniqueKeys(rules) && UniqueIds(m) && ReadsInSync(rules, m, table) && i < j < |m|
    requires m[i].id in FirstIds(rules, m, |rules|) && m[j].id in FirstIds(rules, m, |rules|)
    ensures m[i].key != m[j].key
  {
    hide RawMatches, Fingerprint, FirstOwner, WantSync, RowSync;
    var a :| 0 <= a < |rules| && m[i].id == FirstId(m, rules[a]);
    var b :| 0 <= b < |rules| && m[j].id == FirstId(m, rules[b]);
    FirstServes(m, rules[a], table);
    FirstServes(m, rules[b], table);
  }

  /** A remembered duplicate that is still live reads back in sync, yet would be deleted. */
  lemma DuplicateReadsInSync(want: Rule, raw: Raw)
    requires RawMatches(raw, want)
    ensures var m := [Managed(want.key, 1, Fingerprint(want)), Managed(want.key, 2, Fingerprint(want))];
            ReadsInSync([want], m, map[1 := raw, 2 := raw]) && !Idle([want], m, map[1 := raw, 2 := raw])
  {
    hide RawMatches, Fingerprint, KeepAll;
    var m := [Managed(want.key, 1, Fingerprint(want)), Managed(want.key, 2, Fingerprint(want))];
    var table := map[1 := raw, 2 := raw];
    assert m[..1] == [m[0]];
    assert FirstOwner(m, 0, want.key) == Some(0);
    SameWant([want], 0);
    assert ReadsInSync([want], m, table);
    InSyncIsIdleIff([want], m, table);
    assert m[0].key == m[1].key;
  }
}
