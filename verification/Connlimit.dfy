/** Leased connection limits: policies on disk, matching REJECT rules in a firewall chain.
    Every operation reloads the policies, and any save or command may fail and the process
    may die between any two steps. Proved: no rule is ever left without the policy on disk
    that will remove it, and a clean reconciliation leaves exactly the right rules. */
module Connlimit {
  import opened Wrappers

  // ---------- addresses ----------

  datatype Kind = V4 | V6 | Mapped

  /** An address; `Mapped` is an IPv4-mapped IPv6 address. */
  datatype Addr = Addr(kind: Kind, bits: nat)

  function Unmap(a: Addr): Addr {
    if a.kind == Mapped then Addr(V4, a.bits) else a
  }

  /** An address as stored: what its text parses to as it stands, what it parses to with
      surrounding space trimmed, and whether that is a global unicast address. */
  datatype Text = Text(exact: Option<Addr>, trimmed: Option<Addr>, global: bool)

  function Canonical(a: Addr): Text {
    Text(Some(a), Some(a), true)
  }

  predicate ValidTexts(ips: seq<Text>) {
    forall i :: 0 <= i < |ips| ==> ips[i].trimmed.Some? && ips[i].global
  }

  /** Addresses rules are installed for: validation trims and unmaps. */
  ghost function Targets(ips: seq<Text>): set<Addr> {
    if ValidTexts(ips) then set i | 0 <= i < |ips| :: Unmap(ips[i].trimmed.value) else {}
  }

  /** Addresses rules are removed for: removal takes the text as it stands. */
  ghost function Removals(ips: seq<Text>): set<Addr> {
    set i | 0 <= i < |ips| && ips[i].exact.Some? :: ips[i].exact.value
  }

  /** Whatever is installed for these addresses is also removed for them. */
  ghost predicate Removable(ips: seq<Text>) {
    Targets(ips) <= Removals(ips)
  }

  method ValidateIPs(raw: seq<Text>) returns (r: Option<seq<Addr>>)
    ensures r.Some? <==> ValidTexts(raw)
    ensures r.Some? ==> (forall a :: a in r.value <==> a in Targets(raw))
    ensures r.Some? ==> forall i, j :: 0 <= i < j < |r.value| ==> r.value[i] != r.value[j]
  {
    var out: seq<Addr> := [];
    for i := 0 to |raw|
      invariant forall j :: 0 <= j < i ==> raw[j].trimmed.Some? && raw[j].global
      invariant forall j :: 0 <= j < i ==> Unmap(raw[j].trimmed.value) in out
      invariant forall k :: 0 <= k < |out| ==>
                  exists j :: 0 <= j < i && raw[j].trimmed.Some? && out[k] == Unmap(raw[j].trimmed.value)
      invariant forall k, l :: 0 <= k < l < |out| ==> out[k] != out[l]
    {
      if raw[i].trimmed.None? || !raw[i].global {
        return None;
      }
      var a := Unmap(raw[i].trimmed.value);
      if a !in out {
        out := out + [a];
      }
    }
    return Some(out);
  }

  function Texts(addrs: seq<Addr>): (r: seq<Text>)
    ensures |r| == |addrs| && forall i :: 0 <= i < |r| ==> r[i] == Canonical(addrs[i])
  {
    if addrs == [] then [] else [Canonical(addrs[0])] + Texts(addrs[1..])
  }

  lemma TextsTargets(raw: seq<Text>, addrs: seq<Addr>)
    requires ValidTexts(raw) && forall a :: a in addrs <==> a in Targets(raw)
    ensures Targets(Texts(addrs)) == Targets(raw) && Removable(Texts(addrs))
  {
    var t := Texts(addrs);
    forall i | 0 <= i < |addrs| ensures Unmap(addrs[i]) == addrs[i] {
      assert addrs[i] in Targets(raw);
    }
    forall a | a in Targets(raw) ensures a in Targets(t) && a in Removals(t) {
      var i :| 0 <= i < |addrs| && addrs[i] == a;
      assert t[i] == Canonical(a);
    }
    forall a | a in Targets(t) ensures a in Targets(raw) {
      var i :| 0 <= i < |t| && a == Unmap(t[i].trimmed.value);
      assert a == addrs[i];
    }
  }

  // ---------- policies and rules ----------

  datatype Policy = Policy(id: string, vm: string, instance: string, max: int, expiresAt: int,
                           ips: seq<Text>, removeOnly: bool)

  datatype Dir = In | Out

  datatype Rule = Rule(id: string, max: int, addr: Addr, dir: Dir)

  datatype Target = Target(managed: bool, running: bool, instance: string, ips: seq<Text>)

  /** Looks an instance up; None when that fails. */
  type Resolver = string -> Option<Target>

  ghost predicate RuleOf(p: Policy, addrs: set<Addr>, r: Rule) {
    r.id == p.id && r.max == p.max && r.addr in addrs
  }

  predicate UniqueIds(ps: seq<Policy>) {
    forall i, j :: 0 <= i < j < |ps| ==> ps[i].id != ps[j].id
  }

  ghost function ById(ps: seq<Policy>): map<string, Policy>
    requires UniqueIds(ps)
  {
    map i | 0 <= i < |ps| :: ps[i].id := ps[i]
  }

  /** Every rule belongs to a policy of the same id, limit and address. */
  ghost predicate Covered(m: map<string, Policy>, chain: set<Rule>) {
    forall r :: r in chain ==> r.id in m && RuleOf(m[r.id], Targets(m[r.id].ips), r)
  }

  ghost predicate AllRemovable(ps: seq<Policy>) {
    forall i :: 0 <= i < |ps| ==> Removable(ps[i].ips)
  }

  /** The state that survives anything: rules are covered by removable policies. */
  ghost predicate Good(ps: seq<Policy>, chain: set<Rule>) {
    UniqueIds(ps) && AllRemovable(ps) && Covered(ById(ps), chain)
  }

  function Marked(p: Policy): Policy {
    p.(removeOnly := true)
  }

  function Without(ps: seq<Policy>, id: string): seq<Policy> {
    if ps == [] then []
    else Without(ps[..|ps| - 1], id) + if ps[|ps| - 1].id != id then [ps[|ps| - 1]] else []
  }

  /** The same lease; only its addresses may differ, and a removal mark is never taken back. */
  ghost predicate SameTerms(p: Policy, q: Policy) {
    p == q.(ips := p.ips, removeOnly := p.removeOnly) && (q.removeOnly ==> p.removeOnly)
  }

  ghost predicate HasTerms(ps: seq<Policy>, p: Policy) {
    exists j :: 0 <= j < |ps| && SameTerms(p, ps[j])
  }

  /** Every lease of `next` is one of `ps`. */
  ghost predicate From(next: seq<Policy>, ps: seq<Policy>) {
    forall i :: 0 <= i < |next| ==> HasTerms(ps, next[i])
  }

  lemma FromSelf(ps: seq<Policy>)
    ensures From(ps, ps)
  {
    forall i | 0 <= i < |ps| ensures HasTerms(ps, ps[i]) {
      assert SameTerms(ps[i], ps[i]);
    }
  }

  lemma FromTrans(a: seq<Policy>, b: seq<Policy>, c: seq<Policy>)
    requires From(a, b) && From(b, c)
    ensures From(a, c)
  {
    forall i | 0 <= i < |a| ensures HasTerms(c, a[i]) {
      var j :| 0 <= j < |b| && SameTerms(a[i], b[j]);
      assert HasTerms(c, b[j]);
      var k :| 0 <= k < |c| && SameTerms(b[j], c[k]);
      assert SameTerms(a[i], c[k]);
    }
  }

  lemma FromReplace(ps: seq<Policy>, k: nat, p: Policy)
    requires k < |ps| && SameTerms(p, ps[k])
    ensures From(ps[k := p], ps)
  {
    var next := ps[k := p];
    forall i | 0 <= i < |next| ensures HasTerms(ps, next[i]) {
      assert SameTerms(next[i], ps[i]);
    }
  }

  lemma FromWithout(ps: seq<Policy>, k: nat)
    requires UniqueIds(ps) && k < |ps|
    ensures From(Without(ps, ps[k].id), ps)
  {
    WithoutElements(ps, k);
    hide Without;
    var next := Without(ps, ps[k].id);
    forall i | 0 <= i < |next| ensures HasTerms(ps, next[i]) {
      assert SameTerms(next[i], ps[if i < k then i else i + 1]);
    }
  }

  lemma FromPart(ps: seq<Policy>, p: Policy)
    ensures From(ps, ps + [p])
  {
    forall i | 0 <= i < |ps| ensures HasTerms(ps + [p], ps[i]) {
      assert SameTerms(ps[i], (ps + [p])[i]);
    }
  }

  /** What a retirement leaves on disk, in whatever stage it stops, is of the old leases. */
  lemma StageFrom(st: seq<Policy>, k: nat, skipIntent: bool, disk: seq<Policy>, chain: set<Rule>, disk': seq<Policy>, chain': set<Rule>)
    requires UniqueIds(st) && k < |st| && Stage(st, k, skipIntent, disk, chain, disk', chain')
    ensures disk' == disk || From(disk', st)
    ensures From(st[k := Marked(st[k])], st) && From(Without(st, st[k].id), st)
  {
    FromReplace(st, k, Marked(st[k]));
    FromWithout(st, k);
    hide From, Without, Removals, RuleOf;
  }

  /** Two leases of one instance that are both running. */
  ghost predicate Rivals(p: Policy, q: Policy, now: int) {
    p.vm == q.vm && p.instance == q.instance && p.expiresAt > now && q.expiresAt > now
  }

  /** No instance has two running leases. */
  ghost predicate Unrivalled(ps: seq<Policy>, now: int) {
    forall i, j :: 0 <= i < j < |ps| ==> !Rivals(ps[i], ps[j], now)
  }

  /** Ids, names, limits and remaining times of all leases are within bounds. */
  ghost predicate WithinBounds(ps: seq<Policy>, now: int) {
    forall i :: 0 <= i < |ps| ==> Bounded(ps[i], now)
  }

  ghost predicate Bounded(p: Policy, now: int) {
    && |p.id| == 32 && (forall c :: c in p.id ==> c in "0123456789abcdef") && 1 <= |p.vm| <= 200
    && (forall c :: c in p.vm ==> c !in "\r\n" && c as int != 0)
    && 100 <= p.max <= 10000 && p.expiresAt <= now + 3600
  }

  lemma UnrivalledFrom(next: seq<Policy>, ps: seq<Policy>, now: int, later: int)
    requires UniqueIds(next) && From(next, ps) && Unrivalled(ps, now) && now <= later
    ensures Unrivalled(next, later)
  {
    forall i, j | 0 <= i < j < |next| ensures !Rivals(next[i], next[j], later) {
      assert HasTerms(ps, next[i]) && HasTerms(ps, next[j]);
      var a :| 0 <= a < |ps| && SameTerms(next[i], ps[a]);
      var b :| 0 <= b < |ps| && SameTerms(next[j], ps[b]);
      assert a != b;
      assert !Rivals(ps[a], ps[b], now) && !Rivals(ps[b], ps[a], now) by {
        if a < b { assert !Rivals(ps[a], ps[b], now); } else { assert !Rivals(ps[b], ps[a], now); }
      }
    }
  }

  lemma BoundsFrom(next: seq<Policy>, ps: seq<Policy>, now: int, later: int)
    requires From(next, ps) && WithinBounds(ps, now) && now <= later
    ensures WithinBounds(next, later)
  {
    forall i | 0 <= i < |next| ensures Bounded(next[i], later) {
      assert HasTerms(ps, next[i]);
      var j :| 0 <= j < |ps| && SameTerms(next[i], ps[j]);
    }
  }

  /** None of the leases is a running one of p's instance. */
  ghost predicate NoneRunning(ps: seq<Policy>, p: Policy, now: int) {
    forall i :: 0 <= i < |ps| && ps[i].vm == p.vm && ps[i].instance == p.instance ==> ps[i].expiresAt <= now
  }

  lemma {:induction false} WithoutMiddle(ps: seq<Policy>, k: nat)
    requires UniqueIds(ps) && k < |ps|
    ensures Without(ps, ps[k].id) == ps[..k] + ps[k + 1..]
    decreases |ps|
  {
    var n := |ps| - 1;
    if k == n {
      WithoutAbsent(ps[..n], ps[k].id);
    } else {
      WithoutMiddle(ps[..n], k);
      assert ps[..n][..k] == ps[..k];
      assert ps[k + 1..] == ps[..n][k + 1..] + [ps[n]];
    }
  }

  lemma {:induction false} WithoutAbsent(ps: seq<Policy>, id: string)
    requires forall i :: 0 <= i < |ps| ==> ps[i].id != id
    ensures Without(ps, id) == ps
  {
    if ps != [] {
      WithoutAbsent(ps[..|ps| - 1], id);
    }
  }

  /** Replaces the record with the policy's id, which must be there. */
  method ReplacePolicy(ps: seq<Policy>, k: nat, p: Policy) returns (r: seq<Policy>)
    requires UniqueIds(ps) && k < |ps| && ps[k].id == p.id
    ensures r == ps[k := p] && UniqueIds(r)
  {
    var i := 0;
    while ps[i].id != p.id
      invariant 0 <= i <= k
      decreases k - i
    {
      i := i + 1;
    }
    r := ps[i := p];
  }

  method RemovePolicy(ps: seq<Policy>, id: string) returns (out: seq<Policy>)
    ensures out == Without(ps, id)
  {
    out := [];
    for i := 0 to |ps|
      invariant out == Without(ps[..i], id)
    {
      assert ps[..i + 1][..i] == ps[..i];
      if ps[i].id != id {
        out := out + [ps[i]];
      }
    }
    assert ps[..|ps|] == ps;
  }

  // ---------- how the good state moves ----------

  ghost predicate HasId(ps: seq<Policy>, id: string) {
    exists i :: 0 <= i < |ps| && ps[i].id == id
  }

  /** What characterises the index of a list. */
  lemma IndexOf(ps: seq<Policy>, m: map<string, Policy>)
    requires UniqueIds(ps)
    ensures ById(ps) == m
       <==> (forall i :: 0 <= i < |ps| ==> ps[i].id in m && m[ps[i].id] == ps[i])
            && (forall x :: x in m ==> HasId(ps, x))
  {
  }

  lemma UniqueReplace(ps: seq<Policy>, k: nat, p: Policy)
    requires UniqueIds(ps) && k < |ps| && p.id == ps[k].id
    ensures UniqueIds(ps[k := p])
    ensures forall x :: HasId(ps, x) ==> HasId(ps[k := p], x)
  {
    var q := ps[k := p];
    assert forall i :: 0 <= i < |ps| ==> q[i].id == ps[i].id;
    forall x | HasId(ps, x) ensures HasId(q, x) {
      var i :| 0 <= i < |ps| && ps[i].id == x;
      assert q[i].id == x;
    }
  }

  lemma ByIdReplace(ps: seq<Policy>, k: nat, p: Policy)
    requires UniqueIds(ps) && k < |ps| && p.id == ps[k].id
    ensures UniqueIds(ps[k := p]) && ById(ps[k := p]) == ById(ps)[p.id := p]
  {
    hide ById, HasId;
    IndexOf(ps, ById(ps));
    UniqueReplace(ps, k, p);
    IndexOf(ps[k := p], ById(ps)[p.id := p]);
  }

  lemma WithoutElements(ps: seq<Policy>, k: nat)
    requires UniqueIds(ps) && k < |ps|
    ensures |Without(ps, ps[k].id)| == |ps| - 1
    ensures forall i :: 0 <= i < k ==> Without(ps, ps[k].id)[i] == ps[i]
    ensures forall i :: k <= i < |ps| - 1 ==> Without(ps, ps[k].id)[i] == ps[i + 1]
  {
    hide Without, UniqueIds;
    WithoutMiddle(ps, k);
  }

  lemma UniqueWithout(ps: seq<Policy>, k: nat)
    requires UniqueIds(ps) && k < |ps|
    ensures UniqueIds(Without(ps, ps[k].id))
    ensures forall x :: x != ps[k].id && HasId(ps, x) ==> HasId(Without(ps, ps[k].id), x)
  {
    hide Without;
    WithoutElements(ps, k);
    var q := Without(ps, ps[k].id);
    forall x | x != ps[k].id && HasId(ps, x) ensures HasId(q, x) {
      var i :| 0 <= i < |ps| && ps[i].id == x;
      assert q[if i < k then i else i - 1].id == x;
    }
  }

  lemma ByIdWithout(ps: seq<Policy>, k: nat)
    requires UniqueIds(ps) && k < |ps|
    ensures UniqueIds(Without(ps, ps[k].id)) && ById(Without(ps, ps[k].id)) == ById(ps) - {ps[k].id}
  {
    hide Without, ById, HasId;
    IndexOf(ps, ById(ps));
    WithoutElements(ps, k);
    UniqueWithout(ps, k);
    IndexOf(Without(ps, ps[k].id), ById(ps) - {ps[k].id});
  }

  lemma ByIdAppend(ps: seq<Policy>, p: Policy)
    requires UniqueIds(ps) && p.id !in ById(ps)
    ensures UniqueIds(ps + [p]) && ById(ps + [p]) == ById(ps)[p.id := p]
  {
    hide ById;
    IndexOf(ps, ById(ps));
    var q := ps + [p];
    assert forall i :: 0 <= i < |ps| ==> q[i] == ps[i];
    assert UniqueIds(q);
    forall x | x in ById(ps)[p.id := p] ensures HasId(q, x) {
      if x == p.id {
        assert q[|ps|].id == x;
      } else {
        var i :| 0 <= i < |ps| && ps[i].id == x;
        assert q[i].id == x;
      }
    }
    IndexOf(q, ById(ps)[p.id := p]);
  }

  ghost predicate NoRule(id: string, chain: set<Rule>) {
    forall r :: r in chain ==> r.id != id
  }

  /** Replacing a policy keeps the state good if its addresses stay or its rules are gone. */
  lemma GoodReplace(ps: seq<Policy>, k: nat, p: Policy, chain: set<Rule>)
    requires Good(ps, chain) && k < |ps| && p.id == ps[k].id && p.max == ps[k].max
    requires p.ips == ps[k].ips || (NoRule(p.id, chain) && Removable(p.ips))
    ensures Good(ps[k := p], chain)
  {
    hide Targets, Removals, ById;
    IndexOf(ps, ById(ps));
    ByIdReplace(ps, k, p);
  }

  lemma GoodWithout(ps: seq<Policy>, k: nat, chain: set<Rule>)
    requires Good(ps, chain) && k < |ps| && NoRule(ps[k].id, chain)
    ensures Good(Without(ps, ps[k].id), chain)
  {
    hide Removable, RuleOf, ById, Without;
    ByIdWithout(ps, k);
    WithoutElements(ps, k);
  }

  lemma GoodAppend(ps: seq<Policy>, p: Policy, chain: set<Rule>)
    requires Good(ps, chain) && p.id !in ById(ps) && Removable(p.ips)
    ensures Good(ps + [p], chain)
  {
    hide Targets, Removals, ById;
    ByIdAppend(ps, p);
    var q := ps + [p];
    assert forall i :: 0 <= i < |ps| ==> q[i] == ps[i];
  }

  lemma GoodRules(ps: seq<Policy>, k: nat, chain: set<Rule>, next: set<Rule>)
    requires Good(ps, chain) && k < |ps|
    requires forall r :: r in next ==> r in chain || RuleOf(ps[k], Targets(ps[k].ips), r)
    ensures Good(ps, next)
  {
    hide Targets, Removals, ById;
    IndexOf(ps, ById(ps));
  }

  lemma GoodSubset(ps: seq<Policy>, chain: set<Rule>, next: set<Rule>)
    requires Good(ps, chain) && next <= chain
    ensures Good(ps, next)
  {
  }

  /** With a policy's removable rules gone, none of its rules is left. */
  lemma RemovedMeansNone(ps: seq<Policy>, k: nat, chain: set<Rule>)
    requires Good(ps, chain) && k < |ps|
    requires forall r :: r in chain ==> !RuleOf(ps[k], Removals(ps[k].ips), r)
    ensures NoRule(ps[k].id, chain)
  {
    hide Targets, Removals, ById;
    IndexOf(ps, ById(ps));
  }

  /** Memory against disk during a pass, from index `i` on still as loaded. */
  ghost predicate Synced(st: seq<Policy>, i: nat, disk: seq<Policy>, chain: set<Rule>) {
    && Good(st, chain) && Good(disk, chain)
    && ById(st).Keys == ById(disk).Keys
    && forall j :: i <= j < |st| ==> Agrees(ById(disk), st[j])
  }

  ghost predicate Agrees(m: map<string, Policy>, p: Policy) {
    p.id in m && m[p.id].max == p.max && m[p.id].ips == p.ips
  }

  lemma SyncedSelf(st: seq<Policy>, i: nat, chain: set<Rule>)
    requires Good(st, chain)
    ensures Synced(st, i, st, chain)
  {
    hide Covered, AllRemovable, ById;
    IndexOf(st, ById(st));
  }

  // ---------- the host ----------

  datatype Family = Ip4 | Ip6

  function FamilyOf(a: Addr): Family {
    if a.kind == V4 then Ip4 else Ip6
  }

  /** Rules for IPv4-mapped addresses go where those for IPv4 do. */
  lemma FamilyIff(a: Addr)
    ensures FamilyOf(Unmap(a)) == Ip6 <==> a.kind == V6
  {
  }

  /** How far a retirement got. */
  datatype Retirement = IntentUnsaved | RulesLeft | DeleteUnsaved | Gone

  datatype Refusal = Invalid | Unreadable | DifferentContents | CleanupPending | AlreadyLimited | IdentityMismatch

  datatype Outcome =
    | Done
    | Refused(why: Refusal)
    | Unsaved            // the new policy could not be written
    | NotInstalled       // an existing policy could not be completed
    | Retired(how: Retirement)

  /** Where a lease that is asked for belongs. */
  datatype Placement = Existing(k: nat) | New | Refusing(why: Refusal)

  class Host {
    /** What the policy file holds. */
    var disk: seq<Policy>
    /** The rules of the chain in both tables, and the tables whose FORWARD jumps to it. */
    var chain: set<Rule>
    var jumps: set<Family>
    /** The tables that have the chain. */
    var chains: set<Family>
    var timers: set<string>
    /** Leases whose timer was asked to stop. */
    ghost var stopped: set<string>
    /** How often a timer was asked for. */
    ghost var tried: nat
    var clock: int
    /** The process has died: whatever it would still do has no effect. */
    var dead: bool

    /** The library's check of an instance identity. */
    const isUuid: string -> bool

    constructor (isUuid: string -> bool)
      ensures disk == [] && chain == {} && !dead && this.isUuid == isUuid
    {
      this.isUuid := isUuid;
      disk, chain, jumps, chains, timers, stopped, tried, clock, dead := [], {}, {}, {}, {}, {}, 0, 0, false;
    }

    // ----- steps that may fail or be the last -----

    method Load() returns (r: Option<seq<Policy>>)
      modifies this`dead
      ensures r.Some? ==> !dead && r.value == disk
      ensures old(dead) ==> dead
    {
      var fail, die: bool := *, *;
      dead := dead || die;
      r := if dead || fail then None else Some(disk);
    }

    /** Replaces the file atomically. */
    method Save(st: seq<Policy>) returns (ok: bool)
      modifies this`disk, this`dead
      ensures old(dead) ==> dead && disk == old(disk)
      ensures ok ==> !dead && disk == st
      ensures !ok && !dead ==> disk == old(disk)
      ensures disk == old(disk) || disk == st
    {
      var fail, die: bool := *, *;
      if !dead && !fail {
        disk := st;
      }
      ok := !dead && !fail && !die;
      dead := dead || die;
    }

    method Check(r: Rule) returns (present: bool)
      modifies this`dead
      ensures old(dead) ==> dead
      ensures present ==> r in chain
      ensures !dead ==> present == (r in chain)
    {
      var die: bool := *;
      dead := dead || die;
      present := !dead && r in chain;
    }

    method Append(r: Rule) returns (ok: bool)
      modifies this`chain, this`dead
      ensures old(dead) ==> dead && chain == old(chain)
      ensures ok ==> !dead && chain == old(chain) + {r}
      ensures chain == old(chain) || chain == old(chain) + {r}
      ensures FamilyOf(r.addr) !in chains ==> !ok && chain == old(chain)
    {
      var fail, die: bool := *, *;
      fail := fail || FamilyOf(r.addr) !in chains;
      if !dead && !fail {
        chain := chain + {r};
      }
      ok := !dead && !fail && !die;
      dead := dead || die;
    }

    method Delete(r: Rule) returns (ok: bool)
      modifies this`chain, this`dead
      ensures old(dead) ==> dead && chain == old(chain)
      ensures ok ==> !dead && chain == old(chain) - {r}
      ensures chain == old(chain) || chain == old(chain) - {r}
    {
      var fail, die: bool := *, *;
      if !dead && !fail {
        chain := chain - {r};
      }
      ok := !dead && !fail && !die;
      dead := dead || die;
    }

    /** Creates the chain and its jump from FORWARD where missing. */
    method EnsureChain(f: Family) returns (ok: bool)
      modifies this`jumps, this`chains, this`dead
      ensures old(dead) ==> dead && jumps == old(jumps) && chains == old(chains)
      ensures ok ==> f in jumps && f in chains
      ensures old(jumps) <= jumps <= old(jumps) + {f} && old(chains) <= chains <= old(chains) + {f}
      ensures f in jumps && f !in old(jumps) ==> f in chains
    {
      var fail, die: bool := *, *;
      if !dead && !fail {
        chains := chains + {f};
      }
      ok := !dead && !fail && !die;
      dead := dead || die;
      if !ok {
        return;
      }
      fail, die := *, *;
      if !fail {
        jumps := jumps + {f};
      }
      ok := !fail && !die;
      dead := die;
    }

    method ScheduleExpiry(id: string) returns (ok: bool)
      modifies this`timers, this`tried, this`dead
      ensures old(dead) ==> dead && timers == old(timers)
      ensures ok ==> !dead && id in timers
      ensures timers == old(timers) || timers == old(timers) + {id}
      ensures tried == old(tried) + 1
    {
      var fail, die: bool := *, *;
      tried := tried + 1;
      if !dead && !fail {
        timers := timers + {id};
      }
      ok := !dead && !fail && !die;
      dead := dead || die;
    }

    method StopExpiry(id: string)
      modifies this`timers, this`stopped, this`dead
      ensures old(dead) ==> dead && timers == old(timers)
      ensures timers == old(timers) || timers == old(timers) - {id}
      ensures !old(dead) ==> id in stopped
      ensures old(stopped) <= stopped
    {
      var fail, die: bool := *, *;
      if !dead {
        stopped := stopped + {id};
      }
      if !dead && !fail {
        timers := timers - {id};
      }
      dead := dead || die;
    }

    method Now() returns (t: int)
      modifies this`clock
      ensures t == clock && clock >= old(clock)
    {
      var later: int := *;
      clock := if later > clock then later else clock;
      t := clock;
    }

    /** The agent is started again. */
    method Restart()
      modifies this`dead
      ensures !dead
    {
      dead := false;
    }

    /** The machine is started again: rules, chains, jumps and timers do not survive it. */
    method Reboot()
      modifies this
      ensures !dead && chain == {} && disk == old(disk) && clock == old(clock)
    {
      dead, chain, jumps, chains, timers := false, {}, {}, {}, {};
    }

    // ----- rules -----

    method RemoveOne(r: Rule) returns (ok: bool)
      modifies this`chain, this`dead
      ensures old(dead) ==> dead && chain == old(chain)
      ensures chain == old(chain) || chain == old(chain) - {r}
      ensures ok && !dead ==> chain == old(chain) - {r}
    {
      var present := Check(r);
      if !present {
        return true;
      }
      ok := Delete(r);
    }

    method RemoveRules(p: Policy) returns (ok: bool)
      modifies this`chain, this`dead
      ensures old(dead) ==> dead && chain == old(chain)
      ensures chain <= old(chain)
      ensures forall r :: r in old(chain) && r !in chain ==> RuleOf(p, Removals(p.ips), r)
      ensures ok && !dead ==> forall r :: r in chain ==> !RuleOf(p, Removals(p.ips), r)
    {
      ok := true;
      for i := 0 to |p.ips|
        invariant old(dead) ==> dead && chain == old(chain)
        invariant chain <= old(chain)
        invariant forall r :: r in old(chain) && r !in chain ==> RuleOf(p, Removals(p.ips), r)
        invariant ok && !dead ==>
                    forall j :: 0 <= j < i && p.ips[j].exact.Some? ==>
                      && Rule(p.id, p.max, p.ips[j].exact.value, In) !in chain
                      && Rule(p.id, p.max, p.ips[j].exact.value, Out) !in chain
      {
        if p.ips[i].exact.Some? {
          var a := p.ips[i].exact.value;
          assert a in Removals(p.ips);
          var okIn := RemoveOne(Rule(p.id, p.max, a, In));
          var okOut := RemoveOne(Rule(p.id, p.max, a, Out));
          ok := ok && okIn && okOut;
        }
      }
      forall r | ok && !dead && RuleOf(p, Removals(p.ips), r) ensures r !in chain {
        var j :| 0 <= j < |p.ips| && p.ips[j].exact.Some? && r.addr == p.ips[j].exact.value;
        assert r == Rule(p.id, p.max, p.ips[j].exact.value, if r.dir.In? then In else Out);
      }
    }

    method InstallOne(r: Rule) returns (ok: bool)
      modifies this`chain, this`dead
      ensures old(dead) ==> dead && chain == old(chain)
      ensures chain == old(chain) || chain == old(chain) + {r}
      ensures ok && !dead ==> chain == old(chain) + {r}
    {
      var present := Check(r);
      if present {
        return true;
      }
      ok := Append(r);
    }

    method InstallRules(p: Policy) returns (ok: bool)
      modifies this`chain, this`jumps, this`chains, this`dead
      ensures old(dead) ==> dead && chain == old(chain)
      ensures old(chain) <= chain && old(jumps) <= jumps
      ensures forall r :: r in chain && r !in old(chain) ==> RuleOf(p, Targets(p.ips), r)
      ensures ok && !dead ==> ValidTexts(p.ips) && forall r :: RuleOf(p, Targets(p.ips), r) ==> r in chain && FamilyOf(r.addr) in jumps
    {
      var ips := ValidateIPs(p.ips);
      if ips.None? {
        return false;
      }
      for i := 0 to |ips.value|
        invariant old(dead) ==> dead && chain == old(chain)
        invariant old(chain) <= chain && old(jumps) <= jumps
        invariant forall r :: r in chain && r !in old(chain) ==> RuleOf(p, Targets(p.ips), r)
        invariant !dead ==> forall j :: 0 <= j < i ==>
                    && Rule(p.id, p.max, ips.value[j], In) in chain
                    && Rule(p.id, p.max, ips.value[j], Out) in chain
                    && FamilyOf(ips.value[j]) in jumps
      {
        var a := ips.value[i];
        assert a in Targets(p.ips);
        ok := EnsureChain(FamilyOf(a));
        if !ok {
          return;
        }
        ok := InstallOne(Rule(p.id, p.max, a, In));
        if !ok {
          return;
        }
        ok := InstallOne(Rule(p.id, p.max, a, Out));
        if !ok {
          return;
        }
      }
      ok := true;
      forall r | !dead && RuleOf(p, Targets(p.ips), r) ensures r in chain && FamilyOf(r.addr) in jumps {
        assert r.addr in ips.value;
        var j :| 0 <= j < |ips.value| && ips.value[j] == r.addr;
        assert r == Rule(p.id, p.max, ips.value[j], if r.dir.In? then In else Out);
      }
    }

    // ----- retirement -----

    /** Records the intent to clean up policy `k`, removes its rules and forgets it. The
        host is left in one of three stages: untouched; the intent on disk and some of the
        rules gone; the policy gone from disk and all its removable rules with it. */
    method Retire(st: seq<Policy>, k: nat, skipIntent: bool) returns (st': seq<Policy>, how: Retirement)
      requires UniqueIds(st) && k < |st|
      requires skipIntent && !dead ==> st[k].removeOnly
      modifies this`disk, this`chain, this`dead
      ensures old(dead) ==> dead && disk == old(disk) && chain == old(chain)
      ensures Stage(st, k, skipIntent, old(disk), old(chain), disk, chain)
      ensures how.Gone? ==> !dead
      ensures !dead ==> StageOf(st, k, how, old(disk), old(chain), disk, chain, skipIntent)
      ensures st' == if how.Gone? then Without(st, st[k].id) else st[k := Marked(st[k])]
    {
      var p := Marked(st[k]);
      var id := p.id;
      if !skipIntent {
        st' := ReplacePolicy(st, k, p);
        var saved := Save(st');
        if !saved {
          return st', IntentUnsaved;
        }
      } else {
        st' := st[k := p];
      }
      var removed := RemoveRules(p);
      if !removed {
        return st', RulesLeft;
      }
      var updated := RemovePolicy(st', id);
      WithoutMarked(st, k);
      var deleted := Save(updated);
      if !deleted {
        return st', DeleteUnsaved;
      }
      return updated, Gone;
    }

    // ----- operations -----

    /** Starts (or completes) a lease; the caller fills in no cleanup mark. */
    method Apply(p: Policy) returns (r: Outcome, ghost at: int)
      requires UniqueIds(disk) && !dead && !p.removeOnly
      modifies this
      ensures UniqueIds(disk) && old(clock) <= at <= clock
      ensures old(Good(disk, chain)) && Removable(p.ips) ==> Good(disk, chain)
      ensures r.Refused? ==> disk == old(disk) && chain == old(chain)
      ensures r == Refused(Invalid) <==> !ValidPolicy(p, at) || !isUuid(p.instance)
      ensures r.Refused? ==> Because(old(disk), p, r.why, clock)
      ensures r.Done? ==> !dead && Enforced(p)
      ensures r.Done? && p.id !in ById(old(disk)) ==> disk == old(disk) + [p]
      ensures r.Retired? && !dead ==> Withdrawn(p.id, r.how)
      ensures r.NotInstalled? ==> disk == old(disk) && tried == old(tried) && p.id in ById(old(disk))
      // A lease that has been there is completed only for the same terms; a new one is
      // written only when no other one of its instance is running.
      ensures !r.Refused? && p.id in ById(old(disk)) ==> Renewable(ById(old(disk))[p.id], p) && From(disk, old(disk))
      ensures disk == old(disk) || p.id in ById(old(disk)) || NoneRunning(old(disk), p, clock)
      ensures r.Done? && p.id !in ById(old(disk)) ==> NoneRunning(old(disk), p, clock)
      ensures r != Refused(Invalid) ==> 60 <= p.expiresAt - at <= 3600
      ensures From(disk, old(disk)) || (From(disk, old(disk) + [p]) && p.id !in ById(old(disk)) && ValidPolicy(p, at))
    {
      hide Good, ById, From, ValidPolicy, Removable, Because, NoneRunning, Without, RuleOf, Targets, UniqueIds, ValidTexts,
           Withdrawn;
      var now := Now();
      at := now;
      var valid := ValidatePolicy(p, now);
      FromSelf(disk);
      Excused(disk, p);
      if !valid || !isUuid(p.instance) {
        return Refused(Invalid), at;
      }
      ValidIsBounded(p, at, at);
      var st := Load();
      if st.None? {
        return Refused(Unreadable), at;
      }
      var place := Place(st.value, p);
      match place
      case Refusing(why) => r := Refused(why);
      case Existing(k) => r := Complete(st.value, k);
      case New => r := Begin(st.value, p);
    }

    /** Looks for the lease of p's id, and for another running one of its instance. */
    method Place(st: seq<Policy>, p: Policy) returns (r: Placement)
      requires UniqueIds(st)
      modifies this`clock
      ensures clock >= old(clock)
      ensures r.Refusing? ==> r.why !in {Invalid, Unreadable} && Because(st, p, r.why, clock)
      ensures r.Existing? ==> r.k < |st| && p.id in ById(st) && ById(st)[p.id] == st[r.k] && st[r.k].id == p.id
                              && Renewable(st[r.k], p) && !st[r.k].removeOnly
      ensures r.New? ==> p.id !in ById(st) && NoneRunning(st, p, clock) && forall j :: 0 <= j < |st| ==> st[j].id != p.id
    {
      hide ById, Because, NoneRunning, Searched;
      NothingSearched(st, p, clock);
      var k := 0;
      while k < |st|
        invariant 0 <= k <= |st| && clock >= old(clock) && Searched(st, k, p, clock)
      {
        var q := st[k];
        SearchFinds(st, k, p, clock);
        if q.id == p.id {
          if q.vm != p.vm || q.instance != p.instance || q.max != p.max {
            return Refusing(DifferentContents);
          }
          if q.removeOnly {
            return Refusing(CleanupPending);
          }
          return Existing(k);
        }
        ghost var before := clock;
        var now := Now();
        SearchGoesOn(st, k, p, before, clock);
        if q.vm == p.vm && q.instance == p.instance && q.expiresAt > now {
          return Refusing(AlreadyLimited);
        }
        k := k + 1;
      }
      SearchEnds(st, p, clock);
      return New;
    }

    /** The policy is on disk and its rules and timer are in place. */
    ghost predicate Enforced(p: Policy)
      reads this
      requires UniqueIds(disk)
    {
      p.id in ById(disk) && p.id in timers
      && var q := ById(disk)[p.id];
         && q.vm == p.vm && q.instance == p.instance && q.max == p.max && !q.removeOnly
         && forall r :: RuleOf(q, Targets(q.ips), r) ==> r in chain && FamilyOf(r.addr) in jumps
    }

    /** A policy whose caller was told that activation failed is gone or will only be
        removed, unless the intent itself could not be saved. */
    ghost predicate Withdrawn(id: string, how: Retirement)
      reads this
      requires UniqueIds(disk)
    {
      match how
      case Gone => id !in ById(disk)
      case IntentUnsaved => id in ById(disk) && !ById(disk)[id].removeOnly
      case _ => id in ById(disk) && ById(disk)[id].removeOnly
    }

    /** Installs and schedules a policy that is already on disk. */
    method Complete(st: seq<Policy>, k: nat) returns (r: Outcome)
      requires UniqueIds(st) && disk == st && k < |st| && !st[k].removeOnly && !dead
      modifies this
      ensures UniqueIds(disk)
      ensures old(Good(disk, chain)) ==> Good(disk, chain)
      ensures r.Done? ==> !dead && disk == st && Enforced(st[k])
      ensures r.Retired? && !dead ==> Withdrawn(st[k].id, r.how)
      ensures r.Done? || r.Retired? || r.NotInstalled?
      ensures r.NotInstalled? ==> disk == st && tried == old(tried)
      ensures From(disk, st) && clock == old(clock)
    {
      hide Good, ById, RuleOf, Targets, Removals, Without, ValidTexts, From;
      IndexOf(st, ById(st));
      FromSelf(st);
      var installed := InstallRules(st[k]);
      ghost var chain1 := chain;
      if old(Good(disk, chain)) {
        GoodRules(st, k, old(chain), chain1);
      }
      if !installed {
        return NotInstalled;
      }
      var scheduled := ScheduleExpiry(st[k].id);
      if scheduled {
        return Done;
      }
      r := GiveUp(st, k);
    }

    /** Retires a policy that is on disk as loaded, after its activation failed. */
    method GiveUp(st: seq<Policy>, k: nat) returns (r: Outcome)
      requires UniqueIds(st) && disk == st && k < |st| && !st[k].removeOnly
      modifies this
      ensures UniqueIds(disk)
      ensures old(Good(disk, chain)) ==> Good(disk, chain)
      ensures r.Retired? && (!dead ==> Withdrawn(st[k].id, r.how))
      ensures From(disk, st) && clock == old(clock) && (r.how.Gone? ==> st[k].id in stopped)
    {
      hide Good, ById, RuleOf, Targets, Removals, Without, ValidTexts, Stage, StageOf, From;
      FromSelf(st);
      var _, how := Retire(st, k, false);
      RetireUnique(st, k, false, st, old(chain), disk, chain);
      StageFrom(st, k, false, st, old(chain), disk, chain);
      if old(Good(disk, chain)) {
        RetireGood(st, k, false, st, old(chain), disk, chain);
      }
      if !dead {
        RetireResult(st, k, how, old(chain), disk, chain);
      }
      if how.Gone? {
        StopExpiry(st[k].id);
      }
      return Retired(how);
    }

    /** Writes a new policy down, then installs and schedules it. */
    method Begin(st: seq<Policy>, p: Policy) returns (r: Outcome)
      requires UniqueIds(st) && disk == st && !dead && !p.removeOnly
      requires forall j :: 0 <= j < |st| ==> st[j].id != p.id
      modifies this
      ensures UniqueIds(disk)
      ensures old(Good(disk, chain)) && Removable(p.ips) ==> Good(disk, chain)
      ensures r.Done? ==> !dead && disk == st + [p] && Enforced(p)
      ensures r.Retired? && !dead ==> Withdrawn(p.id, r.how)
      ensures r.Done? || r.Retired? || r.Unsaved?
      ensures From(disk, st + [p]) && (disk == st || p.id !in ById(st)) && clock == old(clock)
    {
      hide Good, ById, RuleOf, Targets, Removals, Without, ValidTexts, Removable, From;
      FromPart(st, p);
      FromSelf(st + [p]);
      IndexOf(st, ById(st));
      ByIdAppend(st, p);
      var st1 := st + [p];
      if old(Good(disk, chain)) && Removable(p.ips) {
        GoodAppend(st, p, chain);
      }
      var saved := Save(st1);
      if !saved {
        return Unsaved;
      }
      r := CompleteNew(st1, |st|);
    }

    method CompleteNew(st: seq<Policy>, k: nat) returns (r: Outcome)
      requires UniqueIds(st) && disk == st && k < |st| && !st[k].removeOnly && !dead
      modifies this
      ensures UniqueIds(disk)
      ensures old(Good(disk, chain)) ==> Good(disk, chain)
      ensures r.Done? ==> !dead && disk == st && Enforced(st[k])
      ensures r.Retired? && !dead ==> Withdrawn(st[k].id, r.how)
      ensures r.Done? || r.Retired?
      ensures From(disk, st) && clock == old(clock)
    {
      hide Good, ById, RuleOf, Targets, Removals, Without, ValidTexts, From;
      r := Complete(st, k);
      if r.NotInstalled? {
        r := GiveUp(st, k);
      }
    }

    /** Ends a lease: once reported done, the policy is gone from disk, and so are the rules
        its addresses name; releasing twice is harmless. */
    method Release(id: string, vm: string, instance: string) returns (r: Outcome)
      requires UniqueIds(disk) && !dead
      modifies this
      ensures UniqueIds(disk)
      ensures old(Good(disk, chain)) ==> Good(disk, chain)
      ensures r.Refused? ==> disk == old(disk) && chain == old(chain)
      ensures r == Refused(Invalid) <==> !isUuid(instance) || !ValidId(id) || vm == ""
      ensures r.Refused? ==> r.why in {Invalid, Unreadable, IdentityMismatch}
      ensures r == Refused(IdentityMismatch) ==> id in ById(old(disk)) && !Names(ById(old(disk))[id], vm, instance)
      ensures !r.Refused? && id in ById(old(disk)) ==> Names(ById(old(disk))[id], vm, instance)
      ensures From(disk, old(disk)) && clock == old(clock)
      ensures r.Done? && id in ById(old(disk)) ==> id in stopped
      ensures r.Done? ==> disk == Without(old(disk), id) && id !in ById(disk)
      ensures r.Done? ==> Cleared(old(disk), id, old(chain), chain)
      ensures r.Done? && old(Good(disk, chain)) ==> NoRule(id, chain)
    {
      hide Good, ById, Without, Stage, StageOf, Removals, From;
      FromSelf(disk);
      if !ValidId(id) || vm == "" || !isUuid(instance) {
        return Refused(Invalid);
      }
      var st := Load();
      if st.None? {
        return Refused(Unreadable);
      }
      IndexOf(disk, ById(disk));
      var k := 0;
      while k < |st.value|
        invariant 0 <= k <= |st.value| && disk == old(disk) == st.value && chain == old(chain) && !dead
        invariant forall j :: 0 <= j < k ==> st.value[j].id != id
      {
        if st.value[k].id == id {
          assert ById(old(disk))[id] == st.value[k];
          if st.value[k].vm != vm || st.value[k].instance != instance {
            return Refused(IdentityMismatch);
          }
          r := Forget(st.value, k);
          if r.Done? {
            StopExpiry(id);
          }
          return;
        }
        k := k + 1;
      }
      WithoutAbsent(disk, id);
      if Good(disk, chain) {
        AbsentHasNoRule(disk, id, chain);
      }
      return Done;
    }

    /** The expiry timer's entry point. */
    method Expire(id: string) returns (r: Outcome)
      requires UniqueIds(disk) && !dead
      modifies this
      ensures UniqueIds(disk)
      ensures old(Good(disk, chain)) ==> Good(disk, chain)
      ensures r.Refused? ==> disk == old(disk) && chain == old(chain)
      ensures r == Refused(Invalid) <==> !ValidId(id)
      ensures From(disk, old(disk)) && clock == old(clock)
      ensures r.Done? ==> disk == Without(old(disk), id) && id !in ById(disk)
      ensures r.Done? ==> Cleared(old(disk), id, old(chain), chain)
      ensures r.Done? && old(Good(disk, chain)) ==> NoRule(id, chain)
    {
      hide Good, ById, Without, Stage, StageOf, Removals, From;
      FromSelf(disk);
      if !ValidId(id) {
        return Refused(Invalid);
      }
      var st := Load();
      if st.None? {
        return Refused(Unreadable);
      }
      IndexOf(disk, ById(disk));
      var k := 0;
      while k < |st.value|
        invariant 0 <= k <= |st.value| && disk == old(disk) == st.value && chain == old(chain) && !dead
        invariant forall j :: 0 <= j < k ==> st.value[j].id != id
      {
        if st.value[k].id == id {
          r := Forget(st.value, k);
          return;
        }
        k := k + 1;
      }
      WithoutAbsent(disk, id);
      if Good(disk, chain) {
        AbsentHasNoRule(disk, id, chain);
      }
      return Done;
    }

    /** Retires policy `k` of the state just loaded. */
    method Forget(st: seq<Policy>, k: nat) returns (r: Outcome)
      requires UniqueIds(st) && disk == st && k < |st|
      modifies this`disk, this`chain, this`dead
      ensures UniqueIds(disk)
      ensures old(Good(disk, chain)) ==> Good(disk, chain)
      ensures r.Done? || r.Retired?
      ensures From(disk, st)
      ensures r.Done? ==> !dead && disk == Without(st, st[k].id) && st[k].id !in ById(disk)
      ensures r.Done? ==> Cleared(st, st[k].id, old(chain), chain)
      ensures r.Done? && old(Good(disk, chain)) ==> NoRule(st[k].id, chain)
    {
      hide Good, ById, RuleOf, Without, Stage, StageOf, Removals, From;
      FromSelf(st);
      var _, how := Retire(st, k, false);
      RetireUnique(st, k, false, st, old(chain), disk, chain);
      StageFrom(st, k, false, st, old(chain), disk, chain);
      if old(Good(disk, chain)) {
        RetireGood(st, k, false, st, old(chain), disk, chain);
      }
      if !how.Gone? {
        return Retired(how);
      }
      RetireResult(st, k, how, old(chain), disk, chain);
      GoneIsCleared(st, k, old(chain), disk, chain);
      GoneFromDisk(st, k, old(chain), disk, chain);
      if Good(disk, chain) {
        AbsentHasNoRule(disk, st[k].id, chain);
      }
      return Done;
    }

    // ----- reconciliation -----

    /** Between two policies of a pass: whatever happened, the host is good, and as long as
        the process lives its memory can stand in for the disk. */
    ghost predicate Pass(st: seq<Policy>, i: nat)
      reads this
    {
      PassState(st, i, dead, disk, chain)
    }

    /** Retires policy `i` in the middle of a pass. */
    method Drop(st: seq<Policy>, i: nat, skipIntent: bool) returns (st': seq<Policy>, gone: bool)
      requires Pass(st, i) && i < |st| && (skipIntent ==> st[i].removeOnly)
      modifies this`disk, this`chain, this`timers, this`stopped, this`dead
      ensures Pass(st', i)
      ensures old(dead) ==> dead
      ensures From(st', st) && (disk == old(disk) || From(disk, st))
      ensures gone ==> st' == Without(st, st[i].id) && disk == st' && NoRule(st[i].id, chain) && st[i].id in stopped
      ensures !gone ==> st' == st[i := Marked(st[i])]
      ensures SameElsewhere(st[i].id, old(chain), chain, old(timers), timers)
    {
      hide Good, ById, RuleOf, Removals, Without, Synced, Stage, StageOf, From;
      var how;
      st', how := Retire(st, i, skipIntent);
      gone := how.Gone?;
      StageFrom(st, i, skipIntent, old(disk), old(chain), disk, chain);
      DropPass(st, i, skipIntent, how, old(dead), old(disk), old(chain), dead, disk, chain, st');
      if gone {
        StopExpiry(st[i].id);
      }
    }

    /** Takes the rules of an instance that is stopped or without usable addresses down. */
    method Suspend(st: seq<Policy>, i: nat) returns (st': seq<Policy>, failed: bool)
      requires Pass(st, i) && i < |st|
      modifies this`disk, this`chain, this`dead
      ensures Pass(st', i + 1)
      ensures old(dead) ==> dead
      ensures From(st', st) && (disk == old(disk) || From(disk, st))
      ensures Readdressed(st, i, st')
      ensures SameElsewhere(st[i].id, old(chain), chain, timers, timers)
      ensures !failed && !dead ==> NoRule(st[i].id, chain)
      ensures !failed ==> st'[i].ips == []
      ensures !failed && !dead && old(disk) == st ==> disk == st'
    {
      hide Good, ById, RuleOf, Removals, Synced, Removable, From;
      FromSelf(st);
      st' := st;
      assert st[i := st[i].(ips := st[i].ips)] == st;
      var p := st[i];
      var removed := RemoveRules(p);
      ThinPass(st, i, old(dead), disk, old(chain), dead, chain, removed);
      if !removed {
        return st', true;
      }
      if |p.ips| != 0 {
        var q := p.(ips := []);
        FromReplace(st, i, q);
        st' := ReplacePolicy(st, i, q);
        if !dead {
          EmptyRemovable();
          ReaddressPass(st, i, q, disk, chain);
        }
        var saved := Save(st');
        failed := !saved;
        if saved {
          SyncedSelf(st', i + 1, chain);
        }
      } else {
        failed := false;
      }
    }

    /** Brings the rules of a running instance to its current addresses. */
    method Refresh(st: seq<Policy>, i: nat, addrs: seq<Addr>, ghost raw: seq<Text>)
      returns (st': seq<Policy>, advance: bool, failed: bool)
      requires Pass(st, i) && i < |st| && !st[i].removeOnly
      requires ValidTexts(raw) && forall a :: a in addrs <==> a in Targets(raw)
      modifies this
      ensures Pass(st', if advance then i + 1 else i)
      ensures old(dead) ==> dead
      ensures From(st', st) && (disk == old(disk) || From(disk, st))
      ensures advance ==> Readdressed(st, i, st')
      ensures !advance ==> failed
      ensures !advance ==> |st'| == |st| - 1 || (|st'| == |st| && st'[i].removeOnly)
      ensures SameElsewhere(st[i].id, old(chain), chain, old(timers), timers)
      ensures clock == old(clock) && old(jumps) <= jumps
      ensures !failed && !dead ==> Installed(st[i], Targets(raw)) && |st'| == |st| && Targets(st'[i].ips) == Targets(raw)
      ensures !failed && !dead && old(disk) == st ==> disk == st'
    {
      hide Good, ById, RuleOf, Removals, Targets, Synced, Removable, ValidTexts, From;
      assert st[i := st[i].(ips := st[i].ips)] == st;
      st', failed := Readdress(st, i, addrs, raw);
      if failed {
        return st', true, true;
      }
      ghost var disk1, chain1, dead1 := disk, chain, dead;
      var installed := InstallRules(st'[i]);
      InstallPass(st', i, dead1, disk, chain1, dead, chain);
      if !installed {
        return st', true, true;
      }
      if !dead {
        SyncedGood(st', i, disk, chain);
        InstalledExactly(st', i, Targets(raw), chain, jumps);
      }
      var scheduled := ScheduleExpiry(st[i].id);
      if !scheduled {
        var gone;
        ghost var st1 := st';
        ghost var disk2 := disk;
        st', gone := Drop(st', i, false);
        FromTrans(st', st1, st);
        if disk != disk2 {
          FromTrans(disk, st1, st);
        }
        if gone {
          WithoutMiddle(st1, i);
        }
        return st', false, true;
      }
      return st', true, false;
    }

    /** Replaces the recorded addresses if they changed, after taking the old rules down. */
    method Readdress(st: seq<Policy>, i: nat, addrs: seq<Addr>, ghost raw: seq<Text>)
      returns (st': seq<Policy>, failed: bool)
      requires Pass(st, i) && i < |st|
      requires ValidTexts(raw) && forall a :: a in addrs <==> a in Targets(raw)
      modifies this`disk, this`chain, this`dead
      ensures Pass(st', if failed then i + 1 else i)
      ensures old(dead) ==> dead
      ensures From(st', st) && (disk == old(disk) || From(disk, st))
      ensures Readdressed(st, i, st')
      ensures SameElsewhere(st[i].id, old(chain), chain, timers, timers)
      ensures !failed && !dead ==> Targets(st'[i].ips) == Targets(raw)
      ensures !failed && !dead && old(disk) == st ==> disk == st'
    {
      hide Good, ById, RuleOf, Removals, Synced, Removable, From;
      FromSelf(st);
      st' := st;
      assert st[i := st[i].(ips := st[i].ips)] == st;
      var p := st[i];
      var current := ValidateIPs(p.ips);
      if current.Some? && (set a | a in current.value) == (set a | a in addrs) {
        SameSets(current.value, Targets(p.ips), addrs, Targets(raw));
        return st', false;
      }
      var removed := RemoveRules(p);
      ThinPass(st, i, old(dead), disk, old(chain), dead, chain, removed);
      if !removed {
        return st', true;
      }
      var q := p.(ips := Texts(addrs));
      TextsTargets(raw, addrs);
      FromReplace(st, i, q);
      st' := ReplacePolicy(st, i, q);
      if !dead {
        ReaddressPass(st, i, q, disk, chain);
      }
      var saved := Save(st');
      failed := !saved;
      if saved {
        SyncedSelf(st', i, chain);
      }
    }

    /** The rules of a policy are exactly those for `addrs`, reachable and with a timer. */
    ghost predicate Installed(p: Policy, addrs: set<Addr>)
      reads this
    {
      p.id in timers
      && forall r: Rule :: r.id == p.id ==>
           (r in chain <==> r.max == p.max && r.addr in addrs) && (r in chain ==> FamilyOf(r.addr) in jumps)
    }

    /** One round of the pass: policy `i` is retired (and the index stays), or brought in
        line with its instance (and the index moves on); after a failed schedule the index
        stays too, with the policy marked or gone. */
    method ReconcileOne(st: seq<Policy>, i: nat, resolve: Resolver)
      returns (st': seq<Policy>, advance: bool, failed: bool)
      requires Pass(st, i) && i < |st|
      modifies this
      ensures Pass(st', if advance then i + 1 else i)
      ensures old(dead) ==> dead
      ensures From(st', st) && (disk == old(disk) || From(disk, st))
      ensures advance ==> |st'| == |st|
      ensures !advance ==> |st'| == |st| - 1 || (|st'| == |st| && !st[i].removeOnly && st'[i].removeOnly)
      ensures clock >= old(clock) && old(jumps) <= jumps
      ensures SameElsewhere(st[i].id, old(chain), chain, old(timers), timers)
      ensures !failed && !advance ==> st' == Without(st, st[i].id) && Ended(st[i], resolve, clock)
      ensures !failed && !advance && !dead ==> NoRule(st[i].id, chain)
      ensures !failed && advance ==> Readdressed(st, i, st') && Kept(st[i], resolve, old(clock))
      ensures !failed && advance && !dead ==> Settled(st[i], resolve, chain, jumps, timers)
      ensures !failed && advance && !dead ==> Targets(st'[i].ips) == Current(resolve, st[i].vm)
      ensures !failed && !dead && old(disk) == st ==> disk == st'
    {
      hide Good, ById, RuleOf, Removals, Targets, Synced, Without, From;
      FromSelf(st);
      var p := st[i];
      var now := Now();
      if p.removeOnly || p.expiresAt <= now {
        var gone;
        st', gone := Drop(st, i, p.removeOnly);
        DropShape(st, i);
        DropNext(st', i, dead, disk, chain);
        return st', !gone, !gone;
      }
      var target := resolve(p.vm);
      if target.None? {
        DropNext(st, i, dead, disk, chain);
        return st, true, true;
      }
      if !target.value.managed || target.value.instance != p.instance {
        var gone;
        st', gone := Drop(st, i, false);
        DropShape(st, i);
        DropNext(st', i, dead, disk, chain);
        return st', !gone, !gone;
      }
      var ips := ValidateIPs(target.value.ips);
      if ips.None? || !target.value.running || ips.value == [] {
        st', failed := Suspend(st, i);
        NothingCurrent(target.value, ips);
        EmptyRemovable();
        return st', true, failed;
      }
      st', advance, failed := Refresh(st, i, ips.value, target.value.ips);
    }

    /** Revalidates every policy against its instance. Whatever fails, the state stays
        good; a pass without failure leaves exactly the rules of the surviving policies at
        the addresses their instances have now. */
    method Reconcile(resolve: Resolver) returns (failed: bool)
      requires !dead && Good(disk, chain)
      modifies this
      ensures Good(disk, chain) && From(disk, old(disk)) && clock >= old(clock)
      ensures !failed && !dead ==> Reconciled(old(disk), resolve, old(clock))
    {
      hide Good, ById, Synced, Without, Settled, Ended, Kept, From;
      FromSelf(disk);
      var loaded := Load();
      if loaded.None? {
        return true;
      }
      var st := loaded.value;
      GoodUnique(st, chain);
      SyncedSelf(st, 0, chain);
      StartTally(st, resolve, clock, chain, jumps, timers);
      failed := false;
      var i := 0;
      while i < |st|
        invariant 0 <= i <= |st| && Pass(st, i)
        invariant UniqueIds(old(disk)) && clock >= old(clock) && From(st, old(disk)) && From(disk, old(disk))
        invariant !failed && !dead ==>
                    disk == st && Tally(old(disk), st, i, resolve, old(clock), clock, chain, jumps, timers)
        decreases |st| - i, i < |st| && !st[i].removeOnly
      {
        ghost var st0, chain0, jumps0, timers0, clock0 := st, chain, jumps, timers, clock;
        var advance, failedHere;
        ghost var disk0 := disk;
        st, advance, failedHere := ReconcileOne(st, i, resolve);
        FromTrans(st, st0, old(disk));
        if disk != disk0 {
          FromTrans(disk, st0, old(disk));
        }
        failed := failed || failedHere;
        if !failed && !dead {
          NextTally(old(disk), st0, i, resolve, old(clock), clock0, chain0, jumps0, timers0,
                    st, advance, clock, chain, jumps, timers);
        }
        i := if advance then i + 1 else i;
      }
      if !failed && !dead {
        EndTally(old(disk), st, resolve, old(clock), clock, chain, jumps, timers);
        assert disk == st;
      }
    }

    /** The rules are exactly those of the policies on disk at their instances' current
        addresses, and the policies on disk are the leases of `before` still in force. */
    ghost predicate Reconciled(before: seq<Policy>, resolve: Resolver, since: int)
      reads this
    {
      && UniqueIds(before) && UniqueIds(disk)
      && (forall r: Rule :: r in chain <==>
            r.id in ById(disk) && r.max == ById(disk)[r.id].max && r.addr in Current(resolve, ById(disk)[r.id].vm))
      && (forall r :: r in chain ==> FamilyOf(r.addr) in jumps && r.id in timers)
      && (forall x :: x in ById(disk) ==> x in ById(before) && SameLease(ById(disk)[x], ById(before)[x])
                                          && Kept(ById(disk)[x], resolve, since))
      && (forall x :: x in ById(disk) ==> Targets(ById(disk)[x].ips) == Current(resolve, ById(disk)[x].vm))
      && (forall x :: x in ById(before) && x !in ById(disk) ==> Ended(ById(before)[x], resolve, clock))
    }
  }

  // ---------- what a pass achieves ----------

  /** Addresses an instance has now: none while it is stopped or reports an unusable one. */
  ghost function Current(resolve: Resolver, vm: string): set<Addr> {
    var t := resolve(vm);
    if t.Some? && t.value.running then Targets(t.value.ips) else {}
  }

  ghost predicate SameInstance(p: Policy, resolve: Resolver) {
    resolve(p.vm).Some? && resolve(p.vm).value.managed && resolve(p.vm).value.instance == p.instance
  }

  /** Still leased at `since`, not marked, and for the same managed instance. */
  ghost predicate Kept(p: Policy, resolve: Resolver, since: int) {
    !p.removeOnly && p.expiresAt > since && SameInstance(p, resolve)
  }

  ghost predicate Ended(p: Policy, resolve: Resolver, until: int) {
    p.removeOnly || p.expiresAt <= until || (resolve(p.vm).Some? && !SameInstance(p, resolve))
  }

  ghost predicate SameLease(p: Policy, q: Policy) {
    p == q.(ips := p.ips)
  }

  ghost predicate Settled(p: Policy, resolve: Resolver, chain: set<Rule>, jumps: set<Family>, timers: set<string>) {
    && (forall r: Rule :: r.id == p.id ==> (r in chain <==> r.max == p.max && r.addr in Current(resolve, p.vm)))
    && (forall r: Rule :: r.id == p.id && r in chain ==> FamilyOf(r.addr) in jumps && r.id in timers)
  }

  /** Progress of a pass without failure: the first `i` policies are settled, the others
      as loaded, the missing ones ended. */
  ghost predicate Tally(before: seq<Policy>, st: seq<Policy>, i: nat, resolve: Resolver, since: int, until: int,
                        chain: set<Rule>, jumps: set<Family>, timers: set<string>)
    requires UniqueIds(before)
  {
    && UniqueIds(st) && i <= |st|
    && (forall j :: 0 <= j < |st| ==> st[j].id in ById(before))
    && (forall j :: i <= j < |st| ==> st[j] == ById(before)[st[j].id])
    && (forall j :: 0 <= j < i ==> SameLease(st[j], ById(before)[st[j].id]) && Kept(st[j], resolve, since)
                                   && Settled(st[j], resolve, chain, jumps, timers)
                                   && Targets(st[j].ips) == Current(resolve, st[j].vm))
    && (forall x :: x in ById(before) && x !in ById(st) ==> Ended(ById(before)[x], resolve, until))
  }

  ghost predicate PassState(st: seq<Policy>, i: nat, dead: bool, disk: seq<Policy>, chain: set<Rule>) {
    Good(disk, chain) && UniqueIds(st) && (dead || Synced(st, i, disk, chain))
  }

  /** Only the addresses of policy `i` changed. */
  ghost predicate Readdressed(st: seq<Policy>, i: nat, st': seq<Policy>) {
    i < |st| && |st'| == |st| && st' == st[i := st[i].(ips := st'[i].ips)]
  }

  lemma GoodUnique(ps: seq<Policy>, chain: set<Rule>)
    requires Good(ps, chain)
    ensures UniqueIds(ps)
  {
  }

  lemma DropShape(st: seq<Policy>, i: nat)
    requires UniqueIds(st) && i < |st|
    ensures |Without(st, st[i].id)| == |st| - 1
  {
    hide Without;
    WithoutElements(st, i);
  }

  lemma DropNext(st: seq<Policy>, i: nat, dead: bool, disk: seq<Policy>, chain: set<Rule>)
    requires PassState(st, i, dead, disk, chain)
    ensures PassState(st, i + 1, dead, disk, chain)
  {
    hide Good, Synced;
    if !dead {
      SyncedNext(st, i, disk, chain);
    }
  }

  lemma NothingCurrent(t: Target, ips: Option<seq<Addr>>)
    requires ips.Some? <==> ValidTexts(t.ips)
    requires ips.Some? ==> forall a :: a in ips.value <==> a in Targets(t.ips)
    requires ips.None? || !t.running || ips.value == []
    ensures t.running ==> Targets(t.ips) == {}
  {
    if ips.Some? && ips.value == [] {
      assert forall a :: a !in Targets(t.ips);
    }
  }

  lemma StartTally(st: seq<Policy>, resolve: Resolver, now: int, chain: set<Rule>, jumps: set<Family>, timers: set<string>)
    requires UniqueIds(st)
    ensures Tally(st, st, 0, resolve, now, now, chain, jumps, timers)
  {
    hide ById, Settled, Kept, Ended;
    IndexOf(st, ById(st));
  }

  lemma SettledElsewhere(p: Policy, id: string, resolve: Resolver, chain: set<Rule>, jumps: set<Family>, timers: set<string>,
                         chain': set<Rule>, jumps': set<Family>, timers': set<string>)
    requires Settled(p, resolve, chain, jumps, timers) && p.id != id
    requires SameElsewhere(id, chain, chain', timers, timers') && jumps <= jumps'
    ensures Settled(p, resolve, chain', jumps', timers')
  {
    hide Current;
  }

  lemma EndedLater(p: Policy, resolve: Resolver, t: int, t': int)
    requires Ended(p, resolve, t) && t <= t'
    ensures Ended(p, resolve, t')
  {
  }

  /** The policies already passed stay settled when another one changes. */
  lemma PassedTally(before: seq<Policy>, st: seq<Policy>, i: nat, resolve: Resolver, since: int, until: int,
                    chain: set<Rule>, jumps: set<Family>, timers: set<string>,
                    until': int, chain': set<Rule>, jumps': set<Family>, timers': set<string>)
    requires UniqueIds(before) && i < |st| && until <= until'
    requires Tally(before, st, i, resolve, since, until, chain, jumps, timers)
    requires SameElsewhere(st[i].id, chain, chain', timers, timers') && jumps <= jumps'
    ensures Tally(before, st, i, resolve, since, until', chain', jumps', timers')
  {
    hide ById, Settled, Ended, SameElsewhere, Kept, SameLease;
    forall j | 0 <= j < i ensures Settled(st[j], resolve, chain', jumps', timers') {
      SettledElsewhere(st[j], st[i].id, resolve, chain, jumps, timers, chain', jumps', timers');
    }
    forall x | x in ById(before) && x !in ById(st) ensures Ended(ById(before)[x], resolve, until') {
      EndedLater(ById(before)[x], resolve, until, until');
    }
  }

  lemma AdvanceTally(before: seq<Policy>, st: seq<Policy>, i: nat, resolve: Resolver, since: int, until: int,
                     chain: set<Rule>, jumps: set<Family>, timers: set<string>, st': seq<Policy>)
    requires UniqueIds(before) && i < |st|
    requires Tally(before, st, i, resolve, since, until, chain, jumps, timers)
    requires Readdressed(st, i, st') && Kept(st[i], resolve, since)
    requires Settled(st[i], resolve, chain, jumps, timers) && Targets(st'[i].ips) == Current(resolve, st[i].vm)
    ensures Tally(before, st', i + 1, resolve, since, until, chain, jumps, timers)
  {
    hide ById, Settled, Ended;
    IndexOf(st, ById(st));
    ByIdReplace(st, i, st'[i]);
    SettledSame(st[i], st'[i], resolve, chain, jumps, timers);
    assert forall j :: 0 <= j < |st| && j != i ==> st'[j] == st[j];
  }

  lemma DropTally(before: seq<Policy>, st: seq<Policy>, i: nat, resolve: Resolver, since: int, until: int,
                  chain: set<Rule>, jumps: set<Family>, timers: set<string>)
    requires UniqueIds(before) && i < |st|
    requires Tally(before, st, i, resolve, since, until, chain, jumps, timers)
    requires Ended(st[i], resolve, until)
    ensures Tally(before, Without(st, st[i].id), i, resolve, since, until, chain, jumps, timers)
  {
    hide ById, Settled, Ended, Without, Kept, SameLease;
    ByIdWithout(st, i);
    WithoutElements(st, i);
    var q := Without(st, st[i].id);
    forall j | i <= j < |q| ensures q[j].id in ById(before) && q[j] == ById(before)[q[j].id] {
      assert q[j] == st[j + 1];
    }
  }

  lemma NextTally(before: seq<Policy>, st: seq<Policy>, i: nat, resolve: Resolver, since: int, until: int,
                  chain: set<Rule>, jumps: set<Family>, timers: set<string>,
                  st': seq<Policy>, advance: bool, until': int, chain': set<Rule>, jumps': set<Family>, timers': set<string>)
    requires UniqueIds(before) && i < |st| && since <= until <= until'
    requires Tally(before, st, i, resolve, since, until, chain, jumps, timers)
    requires SameElsewhere(st[i].id, chain, chain', timers, timers') && jumps <= jumps'
    requires !advance ==> st' == Without(st, st[i].id) && Ended(st[i], resolve, until')
    requires advance ==> Readdressed(st, i, st') && Kept(st[i], resolve, until)
    requires advance ==> Settled(st[i], resolve, chain', jumps', timers') && Targets(st'[i].ips) == Current(resolve, st[i].vm)
    ensures Tally(before, st', if advance then i + 1 else i, resolve, since, until', chain', jumps', timers')
  {
    hide Tally, Settled, Ended, Without, SameElsewhere;
    PassedTally(before, st, i, resolve, since, until, chain, jumps, timers, until', chain', jumps', timers');
    if advance {
      AdvanceTally(before, st, i, resolve, since, until', chain', jumps', timers', st');
    } else {
      DropTally(before, st, i, resolve, since, until', chain', jumps', timers');
    }
  }

  /** A finished tally, read off by id. */
  lemma EndTally(before: seq<Policy>, st: seq<Policy>, resolve: Resolver, since: int, until: int,
                 chain: set<Rule>, jumps: set<Family>, timers: set<string>)
    requires UniqueIds(before) && Good(st, chain)
    requires Tally(before, st, |st|, resolve, since, until, chain, jumps, timers)
    ensures forall r: Rule :: r in chain <==>
              r.id in ById(st) && r.max == ById(st)[r.id].max && r.addr in Current(resolve, ById(st)[r.id].vm)
    ensures forall r :: r in chain ==> FamilyOf(r.addr) in jumps && r.id in timers
    ensures forall x :: x in ById(st) ==> x in ById(before) && SameLease(ById(st)[x], ById(before)[x])
                                          && Kept(ById(st)[x], resolve, since)
    ensures forall x :: x in ById(st) ==> Targets(ById(st)[x].ips) == Current(resolve, ById(st)[x].vm)
    ensures forall x :: x in ById(before) && x !in ById(st) ==> Ended(ById(before)[x], resolve, until)
  {
    hide ById, Kept, Ended, Current, SameLease;
    IndexOf(st, ById(st));
    forall x | x in ById(st)
      ensures x in ById(before) && SameLease(ById(st)[x], ById(before)[x]) && Kept(ById(st)[x], resolve, since)
      ensures Settled(ById(st)[x], resolve, chain, jumps, timers) && ById(st)[x].id == x
    {
      var j :| 0 <= j < |st| && st[j].id == x;
      assert ById(st)[x] == st[j];
    }
    forall r: Rule
      ensures r in chain <==>
              r.id in ById(st) && r.max == ById(st)[r.id].max && r.addr in Current(resolve, ById(st)[r.id].vm)
      ensures r in chain ==> FamilyOf(r.addr) in jumps && r.id in timers
    {
      if r.id in ById(st) {
        assert Settled(ById(st)[r.id], resolve, chain, jumps, timers);
      }
    }
  }

  lemma SettledSame(p: Policy, q: Policy, resolve: Resolver, chain: set<Rule>, jumps: set<Family>, timers: set<string>)
    requires Settled(p, resolve, chain, jumps, timers) && SameLease(q, p)
    ensures Settled(q, resolve, chain, jumps, timers)
  {
    hide Current;
  }

  lemma SameSets(xs: seq<Addr>, a: set<Addr>, ys: seq<Addr>, b: set<Addr>)
    requires (forall x :: x in xs <==> x in a) && (forall y :: y in ys <==> y in b)
    requires (set x | x in xs) == (set y | y in ys)
    ensures a == b
  {
    forall x ensures x in a <==> x in b {
      var sx, sy := (set z | z in xs), (set z | z in ys);
      assert x in sx <==> x in xs;
      assert x in sy <==> x in ys;
      assert sx == sy;
    }
  }

  lemma EmptyRemovable()
    ensures Removable([]) && Targets([]) == {}
  {
  }

  lemma SyncedNext(st: seq<Policy>, i: nat, disk: seq<Policy>, chain: set<Rule>)
    requires Synced(st, i, disk, chain)
    ensures Synced(st, i + 1, disk, chain)
  {
    hide Covered, AllRemovable, ById;
  }

  lemma SyncedChain(st: seq<Policy>, i: nat, disk: seq<Policy>, chain: set<Rule>, next: set<Rule>)
    requires Synced(st, i, disk, chain) && Good(st, next) && Good(disk, next)
    ensures Synced(st, i, disk, next)
  {
    hide Covered, AllRemovable, ById;
  }

  /** Marking or readdressing policy `i` in memory only. */
  lemma SyncedReplace(st: seq<Policy>, i: nat, q: Policy, disk: seq<Policy>, chain: set<Rule>)
    requires Synced(st, i, disk, chain) && i < |st| && q.id == st[i].id && q.max == st[i].max
    requires Good(st[i := q], chain)
    ensures Synced(st[i := q], i + 1, disk, chain)
    ensures q.ips == st[i].ips ==> Synced(st[i := q], i, disk, chain)
  {
    hide Covered, AllRemovable, ById, Agrees;
    KeysReplace(st, i, q);
    assert forall j :: i + 1 <= j < |st| ==> st[i := q][j] == st[j];
    if q.ips == st[i].ips {
      AgreesToo(ById(disk), st[i], q);
    }
  }

  lemma AgreesToo(m: map<string, Policy>, p: Policy, q: Policy)
    requires Agrees(m, p) && q.id == p.id && q.max == p.max && q.ips == p.ips
    ensures Agrees(m, q)
  {
  }

  lemma KeysReplace(ps: seq<Policy>, k: nat, p: Policy)
    requires UniqueIds(ps) && k < |ps| && p.id == ps[k].id
    ensures UniqueIds(ps[k := p]) && ById(ps[k := p]).Keys == ById(ps).Keys
  {
    hide ById;
    ByIdReplace(ps, k, p);
    IndexOf(ps, ById(ps));
  }

  lemma SkipIsMarked(st: seq<Policy>, i: nat)
    requires i < |st| && st[i].removeOnly
    ensures st[i := Marked(st[i])] == st
  {
    assert Marked(st[i]) == st[i];
  }

  lemma RetireSynced(st: seq<Policy>, i: nat, skipIntent: bool, how: Retirement, disk: seq<Policy>, chain: set<Rule>,
                     disk': seq<Policy>, chain': set<Rule>)
    requires Synced(st, i, disk, chain) && i < |st| && (skipIntent ==> st[i].removeOnly)
    requires StageOf(st, i, how, disk, chain, disk', chain', skipIntent) && Good(disk', chain')
    ensures Synced(if how.Gone? then Without(st, st[i].id) else st[i := Marked(st[i])], i, disk', chain')
    ensures how.Gone? ==> NoRule(st[i].id, chain')
  {
    hide Good, ById, RuleOf, Removals, Without;
    SyncedGood(st, i, disk, chain);
    match how
    case Gone =>
      GoodSubset(st, chain, chain');
      RemovedMeansNone(st, i, chain');
      SyncedSelf(disk', i, chain');
    case IntentUnsaved =>
      GoodReplace(st, i, Marked(st[i]), chain);
      SyncedReplace(st, i, Marked(st[i]), disk, chain);
    case _ =>
      if skipIntent {
        SkipIsMarked(st, i);
        GoodSubset(st, chain, chain');
        SyncedChain(st, i, disk, chain, chain');
      } else {
        SyncedSelf(disk', i, chain');
      }
  }

  lemma SyncedGood(st: seq<Policy>, i: nat, disk: seq<Policy>, chain: set<Rule>)
    requires Synced(st, i, disk, chain)
    ensures Good(st, chain) && Good(disk, chain) && UniqueIds(st) && UniqueIds(disk)
  {
  }

  lemma StageElsewhere(st: seq<Policy>, k: nat, skipIntent: bool, disk: seq<Policy>, chain: set<Rule>,
                       disk': seq<Policy>, chain': set<Rule>)
    requires k < |st| && Stage(st, k, skipIntent, disk, chain, disk', chain')
    ensures SameElsewhere(st[k].id, chain, chain', {}, {})
  {
    hide Removals, Without;
  }

  lemma DropPass(st: seq<Policy>, i: nat, skipIntent: bool, how: Retirement,
                 dead: bool, disk: seq<Policy>, chain: set<Rule>,
                 dead': bool, disk': seq<Policy>, chain': set<Rule>, st': seq<Policy>)
    requires PassState(st, i, dead, disk, chain) && i < |st| && (skipIntent ==> st[i].removeOnly)
    requires dead ==> dead' && disk' == disk && chain' == chain
    requires Stage(st, i, skipIntent, disk, chain, disk', chain')
    requires !dead' ==> StageOf(st, i, how, disk, chain, disk', chain', skipIntent)
    requires how.Gone? ==> !dead'
    requires st' == if how.Gone? then Without(st, st[i].id) else st[i := Marked(st[i])]
    ensures PassState(st', i, dead', disk', chain')
    ensures how.Gone? ==> disk' == st' && NoRule(st[i].id, chain')
    ensures SameElsewhere(st[i].id, chain, chain', {}, {})
  {
    hide Good, ById, RuleOf, Removals, Without, Synced, Stage;
    StageElsewhere(st, i, skipIntent, disk, chain, disk', chain');
    ByIdReplace(st, i, Marked(st[i]));
    ByIdWithout(st, i);
    if !dead {
      SyncedGood(st, i, disk, chain);
      RetireGood(st, i, skipIntent, disk, chain, disk', chain');
    }
    if !dead' {
      RetireSynced(st, i, skipIntent, how, disk, chain, disk', chain');
    }
  }

  lemma ThinPass(st: seq<Policy>, i: nat, dead: bool, disk: seq<Policy>, chain: set<Rule>,
                 dead': bool, chain': set<Rule>, removed: bool)
    requires PassState(st, i, dead, disk, chain) && i < |st|
    requires dead ==> dead' && chain' == chain
    requires chain' <= chain
    requires forall r :: r in chain && r !in chain' ==> RuleOf(st[i], Removals(st[i].ips), r)
    requires removed && !dead' ==> forall r :: r in chain' ==> !RuleOf(st[i], Removals(st[i].ips), r)
    ensures PassState(st, i, dead', disk, chain') && (!dead' ==> PassState(st, i + 1, dead', disk, chain'))
    ensures SameElsewhere(st[i].id, chain, chain', {}, {})
    ensures removed && !dead' ==> NoRule(st[i].id, chain')
  {
    hide Good, ById, Removals, Synced;
    GoodSubset(disk, chain, chain');
    if !dead {
      SyncedGood(st, i, disk, chain);
      GoodSubset(st, chain, chain');
      SyncedChain(st, i, disk, chain, chain');
      SyncedNext(st, i, disk, chain');
      if removed && !dead' {
        RemovedMeansNone(st, i, chain');
      }
    }
  }

  lemma ReaddressPass(st: seq<Policy>, i: nat, q: Policy, disk: seq<Policy>, chain: set<Rule>)
    requires Synced(st, i, disk, chain) && i < |st| && NoRule(st[i].id, chain)
    requires q.id == st[i].id && q.max == st[i].max && Removable(q.ips)
    ensures Good(st[i := q], chain) && Synced(st[i := q], i + 1, disk, chain)
  {
    hide Good, ById, Removable, Synced;
    SyncedGood(st, i, disk, chain);
    GoodReplace(st, i, q, chain);
    SyncedReplace(st, i, q, disk, chain);
  }

  lemma InstallPass(st: seq<Policy>, i: nat, dead: bool, disk: seq<Policy>, chain: set<Rule>,
                    dead': bool, chain': set<Rule>)
    requires PassState(st, i, dead, disk, chain) && i < |st|
    requires dead ==> dead' && chain' == chain
    requires chain <= chain'
    requires forall r :: r in chain' && r !in chain ==> RuleOf(st[i], Targets(st[i].ips), r)
    ensures PassState(st, i, dead', disk, chain') && PassState(st, i + 1, dead', disk, chain')
    ensures SameElsewhere(st[i].id, chain, chain', {}, {})
  {
    hide Good, ById, Targets;
    if !dead {
      SyncedGood(st, i, disk, chain);
      GoodRules(st, i, chain, chain');
      IndexOf(disk, ById(disk));
      var k :| 0 <= k < |disk| && disk[k].id == st[i].id;
      GoodRules(disk, k, chain, chain');
      SyncedChain(st, i, disk, chain, chain');
      SyncedNext(st, i, disk, chain');
    }
  }

  lemma InstalledExactly(st: seq<Policy>, i: nat, addrs: set<Addr>, chain: set<Rule>, jumps: set<Family>)
    requires Good(st, chain) && i < |st| && Targets(st[i].ips) == addrs
    requires forall r :: RuleOf(st[i], Targets(st[i].ips), r) ==> r in chain && FamilyOf(r.addr) in jumps
    ensures forall r: Rule :: r.id == st[i].id ==>
              (r in chain <==> r.max == st[i].max && r.addr in addrs) && (r in chain ==> FamilyOf(r.addr) in jumps)
  {
    hide ById, Targets;
    IndexOf(st, ById(st));
    forall r: Rule | r.id == st[i].id
      ensures (r in chain <==> r.max == st[i].max && r.addr in addrs) && (r in chain ==> FamilyOf(r.addr) in jumps)
    {
      assert RuleOf(st[i], addrs, r) <==> r.max == st[i].max && r.addr in addrs;
    }
  }

  /** Nothing but the rules and timer of `id` changed. */
  ghost predicate SameElsewhere(id: string, chain: set<Rule>, chain': set<Rule>, timers: set<string>, timers': set<string>) {
    && (forall r: Rule :: r.id != id ==> (r in chain <==> r in chain'))
    && (forall x :: x != id ==> (x in timers <==> x in timers'))
  }

  /** The chain lost exactly the rules that the addresses of policy `id` name. */
  ghost predicate Cleared(disk: seq<Policy>, id: string, chain: set<Rule>, chain': set<Rule>)
    requires UniqueIds(disk)
  {
    forall r :: r in chain' <==>
      r in chain && !(id in ById(disk) && RuleOf(ById(disk)[id], Removals(ById(disk)[id].ips), r))
  }

  lemma GoneIsCleared(st: seq<Policy>, k: nat, chain: set<Rule>, disk': seq<Policy>, chain': set<Rule>)
    requires UniqueIds(st) && k < |st| && StageOf(st, k, Gone, st, chain, disk', chain', false)
    ensures Cleared(st, st[k].id, chain, chain')
  {
    hide ById, RuleOf, Removals, Without;
    IndexOf(st, ById(st));
  }

  lemma GoneFromDisk(st: seq<Policy>, k: nat, chain: set<Rule>, disk': seq<Policy>, chain': set<Rule>)
    requires k < |st| && StageOf(st, k, Gone, st, chain, disk', chain', false)
    ensures disk' == Without(st, st[k].id)
  {
  }

  lemma AbsentHasNoRule(ps: seq<Policy>, id: string, chain: set<Rule>)
    requires Good(ps, chain) && id !in ById(ps)
    ensures NoRule(id, chain)
  {
  }

  /** What a surviving process leaves on disk for each result, starting from `st`. */
  lemma RetireResult(st: seq<Policy>, k: nat, how: Retirement, chain: set<Rule>,
                     disk': seq<Policy>, chain': set<Rule>)
    requires UniqueIds(st) && k < |st| && UniqueIds(disk')
    requires StageOf(st, k, how, st, chain, disk', chain', false)
    ensures how.Gone? ==> st[k].id !in ById(disk')
    ensures how.IntentUnsaved? ==> st[k].id in ById(disk') && ById(disk')[st[k].id] == st[k]
    ensures how.RulesLeft? || how.DeleteUnsaved? ==>
              st[k].id in ById(disk') && ById(disk')[st[k].id] == Marked(st[k])
  {
    hide ById, RuleOf, Removals, Without;
    IndexOf(st, ById(st));
    ByIdReplace(st, k, Marked(st[k]));
    ByIdWithout(st, k);
  }

  lemma Excused(ps: seq<Policy>, p: Policy)
    requires UniqueIds(ps)
    ensures forall now :: Because(ps, p, Invalid, now) && Because(ps, p, Unreadable, now)
  {
  }

  /** Among the first k leases there is none of p's id and no running one of its instance. */
  ghost predicate Searched(ps: seq<Policy>, k: nat, p: Policy, now: int) {
    && k <= |ps| && (forall j :: 0 <= j < k ==> ps[j].id != p.id)
    && (forall j :: 0 <= j < k && ps[j].vm == p.vm && ps[j].instance == p.instance ==> ps[j].expiresAt <= now)
  }

  lemma NothingSearched(ps: seq<Policy>, p: Policy, now: int)
    ensures Searched(ps, 0, p, now)
  {
  }

  /** A lease of p's id is the one to compare with. */
  lemma SearchFinds(ps: seq<Policy>, k: nat, p: Policy, now: int)
    requires UniqueIds(ps) && k < |ps| && Searched(ps, k, p, now)
    ensures ps[k].id == p.id ==> p.id in ById(ps) && ById(ps)[p.id] == ps[k]
    ensures ps[k].id == p.id && ps[k].removeOnly ==> Because(ps, p, CleanupPending, now)
    ensures ps[k].id == p.id && (ps[k].vm != p.vm || ps[k].instance != p.instance || ps[k].max != p.max) ==>
      Because(ps, p, DifferentContents, now)
    ensures ps[k].id == p.id && ps[k].vm == p.vm && ps[k].instance == p.instance && ps[k].max == p.max && !ps[k].removeOnly ==>
      Renewable(ps[k], p)
  {
    IndexOf(ps, ById(ps));
    hide ById;
  }

  lemma SearchGoesOn(ps: seq<Policy>, k: nat, p: Policy, before: int, now: int)
    requires UniqueIds(ps) && k < |ps| && Searched(ps, k, p, before) && ps[k].id != p.id && before <= now
    ensures if ps[k].vm == p.vm && ps[k].instance == p.instance && ps[k].expiresAt > now then Because(ps, p, AlreadyLimited, now)
            else Searched(ps, k + 1, p, now)
  {
    assert Blocks(ps[k], p, now) <==> ps[k].vm == p.vm && ps[k].instance == p.instance && ps[k].expiresAt > now;
    hide ById;
  }

  lemma SearchEnds(ps: seq<Policy>, p: Policy, now: int)
    requires UniqueIds(ps) && Searched(ps, |ps|, p, now)
    ensures p.id !in ById(ps) && NoneRunning(ps, p, now) && forall j :: 0 <= j < |ps| ==> ps[j].id != p.id
  {
    IndexOf(ps, ById(ps));
    hide ById;
  }

  ghost predicate Names(p: Policy, vm: string, instance: string) {
    p.vm == vm && p.instance == instance
  }

  /** Another running lease of the instance. */
  ghost predicate Blocks(q: Policy, p: Policy, now: int) {
    q.id != p.id && q.vm == p.vm && q.instance == p.instance && q.expiresAt > now
  }

  /** An existing lease that is asked for again. */
  ghost predicate Renewable(q: Policy, p: Policy) {
    q.vm == p.vm && q.instance == p.instance && q.max == p.max && !q.removeOnly
  }

  /** What makes a request for a lease refused. */
  ghost predicate Because(ps: seq<Policy>, p: Policy, why: Refusal, now: int)
    requires UniqueIds(ps)
  {
    match why
    case Invalid => true
    case Unreadable => true
    case DifferentContents =>
      && p.id in ById(ps)
      && var q := ById(ps)[p.id]; q.vm != p.vm || q.instance != p.instance || q.max != p.max
    case CleanupPending => p.id in ById(ps) && ById(ps)[p.id].removeOnly
    case AlreadyLimited => exists i :: 0 <= i < |ps| && Blocks(ps[i], p, now)
    case IdentityMismatch => false
  }

  predicate HexDigit(c: char) {
    '0' <= c <= '9' || 'a' <= c <= 'f'
  }

  predicate ValidId(id: string) {
    |id| == 32 && forall i :: 0 <= i < |id| ==> HexDigit(id[i])
  }

  /** Neither NUL nor an end of line. */
  predicate NameChar(c: char) {
    c as int !in {0, 10, 13}
  }

  /** The checks on a new policy, apart from the library's on the instance identity. */
  predicate ValidPolicy(p: Policy, now: int) {
    && ValidId(p.id)
    && 1 <= |p.vm| <= 200
    && (forall i :: 0 <= i < |p.vm| ==> NameChar(p.vm[i]))
    && 100 <= p.max <= 10000
    && now + 60 <= p.expiresAt <= now + 3600
    && ValidTexts(p.ips) && p.ips != []
  }

  method ValidatePolicy(p: Policy, now: int) returns (ok: bool)
    ensures ok <==> ValidPolicy(p, now)
  {
    if |p.id| != 32 || p.vm == "" || |p.vm| > 200 {
      return false;
    }
    for k := 0 to |p.id|
      invariant forall j :: 0 <= j < k ==> HexDigit(p.id[j])
    {
      if !HexDigit(p.id[k]) {
        return false;
      }
    }
    for k := 0 to |p.vm|
      invariant forall j :: 0 <= j < k ==> NameChar(p.vm[j])
    {
      if !NameChar(p.vm[k]) {
        return false;
      }
    }
    if p.max < 100 || p.max > 10000 {
      return false;
    }
    if p.expiresAt < now + 60 || p.expiresAt > now + 3600 {
      return false;
    }
    var ips := ValidateIPs(p.ips);
    assert p.ips != [] && ValidTexts(p.ips) ==> Unmap(p.ips[0].trimmed.value) in Targets(p.ips);
    assert ips.Some? && ips.value != [] ==> ips.value[0] in Targets(p.ips);
    if ips.None? || ips.value == [] {
      return false;
    }
    ok := true;
  }

  lemma RetireUnique(st: seq<Policy>, k: nat, skipIntent: bool,
                     disk: seq<Policy>, chain: set<Rule>, disk': seq<Policy>, chain': set<Rule>)
    requires UniqueIds(st) && UniqueIds(disk) && k < |st| && Stage(st, k, skipIntent, disk, chain, disk', chain')
    ensures UniqueIds(disk')
  {
    hide ById, RuleOf, Removals, Without;
    ByIdReplace(st, k, Marked(st[k]));
    ByIdWithout(st, k);
  }

  /** A retirement leaves a good state in whatever stage it stops. */
  lemma RetireGood(st: seq<Policy>, k: nat, skipIntent: bool,
                   disk: seq<Policy>, chain: set<Rule>, disk': seq<Policy>, chain': set<Rule>)
    requires Good(st, chain) && Good(disk, chain) && k < |st|
    requires Stage(st, k, skipIntent, disk, chain, disk', chain')
    ensures Good(disk', chain')
  {
    hide Good, RuleOf, Removals, Without;
    GoodSubset(disk, chain, chain');
    GoodSubset(st, chain, chain');
    if disk' == st[k := Marked(st[k])] {
      GoodReplace(st, k, Marked(st[k]), chain');
    } else if disk' == Without(st, st[k].id) && disk' != disk {
      RemovedMeansNone(st, k, chain');
      GoodWithout(st, k, chain');
    }
  }

  lemma {:induction false} WithoutMarked(st: seq<Policy>, k: nat)
    requires UniqueIds(st) && k < |st|
    ensures Without(st[k := Marked(st[k])], st[k].id) == Without(st, st[k].id)
  {
    var q := st[k := Marked(st[k])];
    assert forall i :: 0 <= i < |st| ==> q[i].id == st[i].id;
    WithoutMiddle(st, k);
    WithoutMiddle(q, k);
    assert q[..k] == st[..k] && q[k + 1..] == st[k + 1..];
  }

  /** The stages a retirement of policy `k` of `st` can stop in. */
  ghost predicate Stage(st: seq<Policy>, k: nat, skipIntent: bool,
                        disk: seq<Policy>, chain: set<Rule>, disk': seq<Policy>, chain': set<Rule>)
    requires k < |st|
  {
    var gone := Removals(st[k].ips);
    || (disk' == disk && chain' == chain)
    || (disk' == (if skipIntent then disk else st[k := Marked(st[k])])
        && chain' <= chain && forall r :: r in chain && r !in chain' ==> RuleOf(st[k], gone, r))
    || (disk' == Without(st, st[k].id) && forall r :: r in chain' <==> r in chain && !RuleOf(st[k], gone, r))
  }

  /** The stage each result of a process that survives stands for. */
  ghost predicate StageOf(st: seq<Policy>, k: nat, how: Retirement, disk: seq<Policy>, chain: set<Rule>,
                          disk': seq<Policy>, chain': set<Rule>, skipIntent: bool)
    requires k < |st|
  {
    var gone := Removals(st[k].ips);
    match how
    case IntentUnsaved => disk' == disk && chain' == chain
    case Gone => disk' == Without(st, st[k].id) && forall r :: r in chain' <==> r in chain && !RuleOf(st[k], gone, r)
    case _ => disk' == (if skipIntent then disk else st[k := Marked(st[k])])
              && chain' <= chain && forall r :: r in chain && r !in chain' ==> RuleOf(st[k], gone, r)
  }

  // ---------- whole runs ----------

  datatype Op =
    | ApplyOp(p: Policy)
    | ReleaseOp(id: string, vm: string, instance: string)
    | ExpireOp(id: string)
    | ReconcileOp(resolve: Resolver)
    | RebootOp

  /** Every rule has a policy on disk with its id, limit and address. */
  ghost predicate NoOrphans(disk: seq<Policy>, chain: set<Rule>) {
    forall r :: r in chain ==> exists i :: 0 <= i < |disk| && RuleOf(disk[i], Targets(disk[i].ips), r)
  }

  lemma GoodHasNoOrphans(disk: seq<Policy>, chain: set<Rule>)
    requires Good(disk, chain)
    ensures NoOrphans(disk, chain)
  {
    hide Targets, ById, AllRemovable;
    IndexOf(disk, ById(disk));
    forall r | r in chain ensures exists i :: 0 <= i < |disk| && RuleOf(disk[i], Targets(disk[i].ips), r) {
      var i :| 0 <= i < |disk| && disk[i].id == r.id;
      assert ById(disk)[r.id] == disk[i];
    }
  }

  /** In every run of the operations, with any save or command failing and the process
      dying anywhere (after which the next operation starts from the disk), no rule is
      ever orphaned, no instance has two running leases, and limits and times are bounded,
      provided the leases asked for name removable addresses. */
  method Run(isUuid: string -> bool, ops: seq<Op>) returns (h: Host)
    requires forall i :: 0 <= i < |ops| && ops[i].ApplyOp? ==> !ops[i].p.removeOnly && Removable(ops[i].p.ips)
    ensures fresh(h) && NoOrphans(h.disk, h.chain)
    ensures Unrivalled(h.disk, h.clock) && WithinBounds(h.disk, h.clock)
  {
    hide Covered, AllRemovable, Removable, From, ById, Unrivalled, WithinBounds;
    h := new Host(isUuid);
    FreshIsGood();
    NoLeases(h.clock);
    for i := 0 to |ops|
      invariant fresh(h) && Good(h.disk, h.chain) && Unrivalled(h.disk, h.clock) && WithinBounds(h.disk, h.clock)
    {
      if h.dead {
        h.Restart();
      }
      ghost var disk, clock := h.disk, h.clock;
      FromSelf(disk);
      match ops[i] {
        case ApplyOp(p) =>
          var r, at := h.Apply(p);
          if !From(h.disk, disk) {
            LeaseAdded(disk, p, h.disk, clock, at, h.clock);
          }
        case ReleaseOp(id, vm, instance) => var _ := h.Release(id, vm, instance);
        case ExpireOp(id) => var _ := h.Expire(id);
        case ReconcileOp(resolve) => var _ := h.Reconcile(resolve);
        case RebootOp =>
          GoodSubset(h.disk, h.chain, {});
          h.Reboot();
      }
      if From(h.disk, disk) {
        UnrivalledFrom(h.disk, disk, clock, h.clock);
        BoundsFrom(h.disk, disk, clock, h.clock);
      }
    }
    GoodHasNoOrphans(h.disk, h.chain);
  }

  lemma NoLeases(now: int)
    ensures Unrivalled([], now) && WithinBounds([], now)
  {
  }

  lemma ValidIsBounded(p: Policy, at: int, now: int)
    requires ValidPolicy(p, at) && at <= now
    ensures Bounded(p, now) && 60 <= p.expiresAt - at <= 3600
  {
    forall c | c in p.id ensures c in "0123456789abcdef" {
      HexIsDigit(c);
    }
    forall c | c in p.vm ensures c !in "\r\n" && c as int != 0 {
      NameCharIff(c);
    }
    hide HexDigit, NameChar;
  }

  lemma NameCharIff(c: char)
    ensures NameChar(c) <==> c !in "\r\n" && c as int != 0
  {
    assert "\r\n" == [13 as char, 10 as char];
  }

  lemma HexIsDigit(c: char)
    ensures HexDigit(c) <==> c in "0123456789abcdef"
  {
    if HexDigit(c) {
      var s := "0123456789abcdef";
      var i := if c as int < 58 then c as int - 48 else c as int - 87;
      assert s[i] == c;
    }
  }

  lemma LeaseAdded(disk: seq<Policy>, p: Policy, disk': seq<Policy>, clock: int, at: int, clock': int)
    requires Unrivalled(disk, clock) && WithinBounds(disk, clock) && clock <= at <= clock' && UniqueIds(disk')
    requires From(disk', disk + [p]) && ValidPolicy(p, at) && NoneRunning(disk, p, clock')
    ensures Unrivalled(disk', clock') && WithinBounds(disk', clock')
  {
    hide From, ValidTexts;
    assert Unrivalled(disk + [p], clock');
    ValidIsBounded(p, at, clock');
    assert WithinBounds(disk + [p], clock');
    hide Unrivalled, WithinBounds, NoneRunning, ValidPolicy;
    UnrivalledFrom(disk', disk + [p], clock', clock');
    BoundsFrom(disk', disk + [p], clock', clock');
  }

  lemma FreshIsGood()
    ensures Good([], {})
  {
  }

  // ---------- which addresses can be removed ----------

  /** Applying a policy on an empty host and releasing it again leaves the chain empty if
      and only if its addresses are removable. */
  method ApplyThenRelease(isUuid: string -> bool, p: Policy) returns (h: Host, applied: Outcome, released: Outcome)
    requires !p.removeOnly
    ensures applied.Done? && released.Done? ==> (h.chain == {} <==> Removable(p.ips))
  {
    hide Targets, Removals, Covered, AllRemovable;
    h := new Host(isUuid);
    FreshIsGood();
    EmptyIndex();
    ghost var at;
    applied, at := h.Apply(p);
    released := Done;
    if applied.Done? {
      ghost var disk1, chain1 := h.disk, h.chain;
      assert disk1 == [p];
      OneIndex(p);
      released := h.Release(p.id, p.vm, p.instance);
      if released.Done? {
        ReleaseLeaves(p, disk1, chain1, h.disk, h.chain);
      }
    }
  }

  lemma EmptyIndex()
    ensures ById([]) == map[]
  {
  }

  lemma OneIndex(p: Policy)
    ensures UniqueIds([p]) && ById([p]) == map[p.id := p] && Without([p], p.id) == []
  {
    WithoutMiddle([p], 0);
    IndexOf([p], map[p.id := p]);
    assert HasId([p], p.id) by { assert [p][0].id == p.id; }
  }

  lemma ReleaseLeaves(p: Policy, disk: seq<Policy>, chain: set<Rule>, disk': seq<Policy>, chain': set<Rule>)
    requires disk == [p] && UniqueIds(disk) && disk' == Without(disk, p.id)
    requires forall r :: RuleOf(p, Targets(p.ips), r) ==> r in chain
    requires Removable(p.ips) ==> Good(disk', chain')
    requires Cleared(disk, p.id, chain, chain')
    ensures chain' == {} <==> Removable(p.ips)
  {
    hide Targets, Removals;
    OneIndex(p);
    EmptyIndex();
    if Removable(p.ips) {
      assert forall r :: r !in chain';
    } else {
      var a :| a in Targets(p.ips) && a !in Removals(p.ips);
      var r := Rule(p.id, p.max, a, In);
      assert RuleOf(p, Targets(p.ips), r) && !RuleOf(p, Removals(p.ips), r);
      assert r in chain';
    }
  }

  /** Addresses written as they are printed, and not IPv4-mapped, are removable. */
  lemma PlainIsRemovable(ips: seq<Text>)
    requires forall i :: 0 <= i < |ips| ==>
               ips[i].exact == ips[i].trimmed && (ips[i].exact.Some? ==> ips[i].exact.value.kind != Mapped)
    ensures Removable(ips)
  {
  }

  /** An address with surrounding space, or an IPv4-mapped one, is accepted and installed,
      but its rules are never found again. */
  lemma PaddedAndMappedLeak(n: nat)
    ensures !Removable([Text(None, Some(Addr(V4, n)), true)])
    ensures !Removable([Text(Some(Addr(Mapped, n)), Some(Addr(Mapped, n)), true)])
  {
    var padded := [Text(None, Some(Addr(V4, n)), true)];
    assert Unmap(padded[0].trimmed.value) in Targets(padded);
    var mapped := [Text(Some(Addr(Mapped, n)), Some(Addr(Mapped, n)), true)];
    assert Unmap(mapped[0].trimmed.value) in Targets(mapped);
  }
}
