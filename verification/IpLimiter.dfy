/** Admission of port-forward connections by number of distinct source addresses, with a
    reference count per address. */
module IpLimiter {
  import opened Wrappers
  import opened Numbers

  /** One open connection. */
  datatype Conn = Conn(vm: string, ip: string)

  type Active = map<string, map<string, nat>>

  function Count(active: Active, c: Conn): nat {
    if c.vm in active && c.ip in active[c.vm] then active[c.vm][c.ip] else 0
  }

  function Sources(active: Active, vm: string): nat {
    if vm in active then |active[vm]| else 0
  }

  ghost predicate NoEmptyEntries(active: Active) {
    && (forall vm :: vm in active ==> active[vm] != map[])
    && (forall vm, ip :: vm in active && ip in active[vm] ==> active[vm][ip] > 0)
  }

  /** The table with one connection of `c` more. */
  function Acquired(active: Active, c: Conn): Active {
    var counts := if c.vm in active then active[c.vm] else map[];
    active[c.vm := counts[c.ip := (if c.ip in counts then counts[c.ip] else 0) + 1]]
  }

  /** The table with one connection of `c` less. */
  function Released(active: Active, c: Conn): Active {
    if c.vm !in active then active
    else
      var counts := active[c.vm];
      if c.ip in counts && counts[c.ip] > 1 then active[c.vm := counts[c.ip := counts[c.ip] - 1]]
      else if |counts - {c.ip}| == 0 then active - {c.vm}
      else active[c.vm := counts - {c.ip}]
  }

  class Limiter {
    var globalLimit: nat
    var ipLimits: map<string, int>
    var vmActiveIPs: Active
    /** Admitted connections that have not ended. */
    ghost var open: multiset<Conn>

    /** Counts are exact, and nothing is kept for addresses or instances without one. */
    ghost predicate Valid()
      reads this
    {
      && NoEmptyEntries(vmActiveIPs)
      && (forall c: Conn :: open[c] == Count(vmActiveIPs, c))
    }

    constructor (limit: nat)
      ensures Valid() && open == multiset{} && vmActiveIPs == map[]
      ensures globalLimit == limit && ipLimits == map[]
    {
      globalLimit, ipLimits, vmActiveIPs, open := limit, map[], map[], multiset{};
    }

    function EffectiveLimit(vm: string): int
      reads this
    {
      if vm in ipLimits then ipLimits[vm] else globalLimit
    }

    method SetLimit(vm: string, limit: Option<int>) returns (ok: bool)
      modifies this`ipLimits
      ensures ok <==> limit.None? || limit.value >= 0
      ensures !ok ==> ipLimits == old(ipLimits)
      ensures ok ==> EffectiveLimit(vm) == if limit.Some? then limit.value else globalLimit
      ensures forall w :: w != vm ==> EffectiveLimit(w) == old(EffectiveLimit(w))
    {
      if limit.None? {
        ipLimits := ipLimits - {vm};
        return true;
      }
      if limit.value < 0 {
        return false;
      }
      ipLimits := ipLimits[vm := limit.value];
      return true;
    }

    /** Registers a connection under a limit read earlier, without the lock. */
    method TryAcquire(vm: string, ip: string, limit: int) returns (ok: bool)
      requires Valid()
      modifies this`vmActiveIPs, this`open
      ensures Valid()
      ensures ok <==> Conn(vm, ip) in old(open) || limit <= 0 || Sources(old(vmActiveIPs), vm) < limit
      ensures open == if ok then old(open) + multiset{Conn(vm, ip)} else old(open)
      ensures forall w :: w != vm ==> Sources(vmActiveIPs, w) == Sources(old(vmActiveIPs), w)
      ensures Sources(vmActiveIPs, vm)
           == Sources(old(vmActiveIPs), vm) + (if ok && Conn(vm, ip) !in old(open) then 1 else 0)
    {
      hide Acquired;
      assert open[Conn(vm, ip)] == Count(vmActiveIPs, Conn(vm, ip));
      var counts := if vm in vmActiveIPs then vmActiveIPs[vm] else map[];
      if ip !in counts && limit > 0 && |counts| >= limit {
        return false;
      }
      AcquiredMeans(vmActiveIPs, Conn(vm, ip));
      open := open + multiset{Conn(vm, ip)};
      AddCount(vm, ip);
      ok := true;
    }

    /** The table update of an admission. */
    method AddCount(vm: string, ip: string)
      modifies this`vmActiveIPs
      ensures vmActiveIPs == Acquired(old(vmActiveIPs), Conn(vm, ip))
    {
      var counts := if vm in vmActiveIPs then vmActiveIPs[vm] else map[];
      vmActiveIPs := vmActiveIPs[vm := counts[ip := (if ip in counts then counts[ip] else 0) + 1]];
    }

    method Release(vm: string, ip: string)
      requires Valid()
      modifies this`vmActiveIPs, this`open
      ensures Valid()
      ensures open == old(open) - multiset{Conn(vm, ip)}
      ensures forall w :: Sources(vmActiveIPs, w) <= Sources(old(vmActiveIPs), w)
    {
      hide Released, Sources;
      assert open[Conn(vm, ip)] == Count(vmActiveIPs, Conn(vm, ip));
      ReleasedMeans(vmActiveIPs, Conn(vm, ip));
      open := open - multiset{Conn(vm, ip)};
      DropCount(vm, ip);
    }

    /** The table update of a release. */
    method DropCount(vm: string, ip: string)
      modifies this`vmActiveIPs
      ensures vmActiveIPs == Released(old(vmActiveIPs), Conn(vm, ip))
    {
      if vm in vmActiveIPs {
        var counts := vmActiveIPs[vm];
        if ip in counts && counts[ip] > 1 {
          vmActiveIPs := vmActiveIPs[vm := counts[ip := counts[ip] - 1]];
        } else if |counts - {ip}| == 0 {
          vmActiveIPs := vmActiveIPs - {vm};
        } else {
          vmActiveIPs := vmActiveIPs[vm := counts - {ip}];
        }
      }
    }
  }

  lemma ReleasedMeans(active: Active, c: Conn)
    requires NoEmptyEntries(active)
    ensures NoEmptyEntries(Released(active, c))
    ensures forall d :: Count(Released(active, c), d) == Count(active, d) - (if d == c && Count(active, d) > 0 then 1 else 0)
    ensures forall w :: Sources(Released(active, c), w) <= Sources(active, w)
  {
    if c.vm in active {
      var counts := active[c.vm];
      if c.ip in counts && counts[c.ip] > 1 {
        assert counts[c.ip := counts[c.ip] - 1].Keys == counts.Keys;
      } else {
        assert (counts - {c.ip}).Keys == counts.Keys - {c.ip};
        Smaller((counts - {c.ip}).Keys, counts.Keys);
        if |counts - {c.ip}| == 0 {
          assert (counts - {c.ip}).Keys == {};
        }
      }
    }
  }

  lemma AcquiredMeans(active: Active, c: Conn)
    requires NoEmptyEntries(active)
    ensures NoEmptyEntries(Acquired(active, c))
    ensures forall d :: Count(Acquired(active, c), d) == Count(active, d) + (if d == c then 1 else 0)
    ensures forall w :: Sources(Acquired(active, c), w)
                     == Sources(active, w) + (if w == c.vm && Count(active, c) == 0 then 1 else 0)
  {
    AcquiredCounts(active, c);
    AcquiredSources(active, c);
    hide Count, Sources;
  }

  lemma AcquiredCounts(active: Active, c: Conn)
    ensures forall d :: Count(Acquired(active, c), d) == Count(active, d) + (if d == c then 1 else 0)
  {
  }

  lemma AcquiredSources(active: Active, c: Conn)
    requires NoEmptyEntries(active)
    ensures forall w :: Sources(Acquired(active, c), w)
                     == Sources(active, w) + (if w == c.vm && Count(active, c) == 0 then 1 else 0)
  {
    var counts := if c.vm in active then active[c.vm] else map[];
    var updated := counts[c.ip := (if c.ip in counts then counts[c.ip] else 0) + 1];
    assert updated.Keys == counts.Keys + {c.ip};
    assert Acquired(active, c) == active[c.vm := updated];
    hide Acquired;
  }

  /** Steps of concurrent connection handlers: the limit is read, then the connection is
      admitted or refused under the lock; admitted connections end in any order. */
  datatype Step =
    | ReadLimit(task: nat, vm: string, ip: string)
    | Enter(task: nat)
    | Leave(vm: string, ip: string)
    | Configure(vm: string, limit: Option<int>)

  /** The effective limit of an instance after the first n steps. */
  ghost function LimitAfter(limit: nat, steps: seq<Step>, n: nat, vm: string): int
    requires n <= |steps|
  {
    if n == 0 then limit else LimitStep(limit, steps[n - 1], vm, LimitAfter(limit, steps, n - 1, vm))
  }

  /** The addresses an instance has open connections from. */
  ghost function OpenSources(open: multiset<Conn>, vm: string): set<string> {
    set c | c in open && c.vm == vm :: c.ip
  }

  /** The plain account of what should happen: the open connections, and what each handler is
      about to enter with. */
  datatype Account = Account(open: multiset<Conn>, pending: map<nat, (Conn, int)>)

  ghost function Accounted(a: Account, step: Step, limit: int): Account {
    match step
    case ReadLimit(task, vm, ip) => a.(pending := a.pending[task := (Conn(vm, ip), limit)])
    case Enter(task) =>
      if task !in a.pending then a
      else
        var (c, l) := a.pending[task];
        var admitted := c in a.open || l <= 0 || |OpenSources(a.open, c.vm)| < l;
        Account(if admitted then a.open + multiset{c} else a.open, a.pending - {task})
    case Leave(vm, ip) => a.(open := a.open - multiset{Conn(vm, ip)})
    case Configure(_, _) => a
  }

  ghost function AccountAfter(limit: nat, steps: seq<Step>, n: nat): Account
    requires n <= |steps|
  {
    if n == 0 then Account(multiset{}, map[])
    else
      var s := steps[n - 1];
      Accounted(AccountAfter(limit, steps, n - 1), s, if s.ReadLimit? then LimitAfter(limit, steps, n - 1, s.vm) else 0)
  }

  /** The table has a count for exactly the open sources. */
  lemma SourcesOpen(active: Active, open: multiset<Conn>, vm: string)
    requires NoEmptyEntries(active) && forall c: Conn :: open[c] == Count(active, c)
    ensures Sources(active, vm) == |OpenSources(open, vm)|
  {
    var keys := if vm in active then active[vm].Keys else {};
    forall ip ensures ip in keys <==> ip in OpenSources(open, vm) {
      assert open[Conn(vm, ip)] == Count(active, Conn(vm, ip));
      assert ip in keys <==> Conn(vm, ip) in open;
    }
    assert keys == OpenSources(open, vm);
  }

  /** Whoever reads the instance's limit among the first n steps finds it at most k, and not
      lifted. */
  ghost predicate ReadsWithin(limit: nat, steps: seq<Step>, n: nat, vm: string, k: nat)
    requires n <= |steps|
  {
    forall i :: 0 <= i < n && steps[i].ReadLimit? && steps[i].vm == vm ==> 0 < LimitAfter(limit, steps, i, vm) <= k
  }

  /** An admission decided on a limit read before. */
  method TakeEntry(m: Limiter, task: nat, pending: map<nat, (Conn, int)>) returns (after: map<nat, (Conn, int)>)
    requires m.Valid()
    modifies m`vmActiveIPs, m`open
    ensures m.Valid() && Account(m.open, after) == Accounted(Account(old(m.open), pending), Enter(task), 0)
  {
    hide Sources, NoEmptyEntries, Count, OpenSources;
    after := pending;
    if task in pending {
      var (c, l) := pending[task];
      after := pending - {task};
      SourcesOpen(m.vmActiveIPs, m.open, c.vm);
      var _ := m.TryAcquire(c.vm, c.ip, l);
    }
  }

  /** One step of the handlers, or of the configuration. */
  method Take(m: Limiter, step: Step, pending: map<nat, (Conn, int)>) returns (after: map<nat, (Conn, int)>)
    requires m.Valid()
    modifies m
    ensures m.Valid() && m.globalLimit == old(m.globalLimit)
    ensures Account(m.open, after)
         == Accounted(Account(old(m.open), pending), step, if step.ReadLimit? then old(m.EffectiveLimit(step.vm)) else 0)
    ensures forall vm :: m.EffectiveLimit(vm) == LimitStep(m.globalLimit, step, vm, old(m.EffectiveLimit(vm)))
  {
    hide Sources, NoEmptyEntries, Count, OpenSources;
    after := pending;
    match step
    case ReadLimit(task, vm, ip) =>
      var l := m.EffectiveLimit(vm);
      after := pending[task := (Conn(vm, ip), l)];
    case Enter(task) => after := TakeEntry(m, task, pending);
    case Leave(vm, ip) => m.Release(vm, ip);
    case Configure(vm, l) => var _ := m.SetLimit(vm, l);
  }

  /** Every interleaving, with limits changed at any time, admits and ends exactly the
      connections of the plain account, keeps the counts exact, and never has more distinct
      sources than the largest limit a handler was given. */
  method Interleave(limit: nat, steps: seq<Step>, watched: string) returns (m: Limiter)
    ensures fresh(m) && m.Valid() && m.open == AccountAfter(limit, steps, |steps|).open
    ensures forall vm :: m.EffectiveLimit(vm) == LimitAfter(limit, steps, |steps|, vm)
    ensures forall k :: ReadsWithin(limit, steps, |steps|, watched, k) ==> Sources(m.vmActiveIPs, watched) <= k
  {
    hide Sources, NoEmptyEntries, Count, Accounted, LimitStep, ReadsWithin;
    m := new Limiter(limit);
    var pending: map<nat, (Conn, int)> := map[];
    for i := 0 to |steps|
      invariant fresh(m) && m.Valid() && m.globalLimit == limit
      invariant forall vm :: m.EffectiveLimit(vm) == LimitAfter(limit, steps, i, vm)
      invariant AccountAfter(limit, steps, i) == Account(m.open, pending)
    {
      pending := Take(m, steps[i], pending);
    }
    SourcesOpen(m.vmActiveIPs, m.open, watched);
    forall k | ReadsWithin(limit, steps, |steps|, watched, k) ensures Sources(m.vmActiveIPs, watched) <= k {
      AccountBounded(limit, steps, |steps|, watched, k);
    }
  }

  /** Limits in the hands of handlers of the instance are at most k, and not lifted. */
  ghost predicate Within(pending: map<nat, (Conn, int)>, vm: string, k: nat) {
    forall t :: t in pending && pending[t].0.vm == vm ==> 0 < pending[t].1 <= k
  }

  /** Whatever bounds the limits read bounds those in hand and the open sources. */
  lemma {:induction false} AccountBounded(limit: nat, steps: seq<Step>, n: nat, vm: string, k: nat)
    requires n <= |steps| && ReadsWithin(limit, steps, n, vm, k)
    ensures var a := AccountAfter(limit, steps, n); Within(a.pending, vm, k) && |OpenSources(a.open, vm)| <= k
  {
    if n > 0 {
      ReadsNext(limit, steps, n, vm);
      hide ReadsWithin, LimitAfter;
      AccountBounded(limit, steps, n - 1, vm, k);
      var s := steps[n - 1];
      var l := if s.ReadLimit? then LimitAfter(limit, steps, n - 1, s.vm) else 0;
      StepBounded(AccountAfter(limit, steps, n - 1), s, l, vm, k);
    } else {
      assert OpenSources(multiset{}, vm) == {};
    }
  }

  lemma StepBounded(a: Account, s: Step, l: int, vm: string, k: nat)
    requires Within(a.pending, vm, k) && |OpenSources(a.open, vm)| <= k && (s.ReadLimit? && s.vm == vm ==> 0 < l <= k)
    ensures var b := Accounted(a, s, l); Within(b.pending, vm, k) && |OpenSources(b.open, vm)| <= k
  {
    match s
    case Enter(task) =>
      if task in a.pending {
        MoreSources(a.open, a.pending[task].0, vm);
        hide OpenSources;
      }
    case Leave(w, ip) => FewerSources(a.open, Conn(w, ip), vm);
    case _ => hide OpenSources;
  }

  lemma MoreSources(open: multiset<Conn>, c: Conn, vm: string)
    ensures |OpenSources(open + multiset{c}, vm)| == |OpenSources(open, vm)| + if c.vm == vm && c.ip !in OpenSources(open, vm) then 1 else 0
    ensures c in open ==> c.ip in OpenSources(open, c.vm)
  {
    var base, more := OpenSources(open, vm), OpenSources(open + multiset{c}, vm);
    if c.vm == vm && c.ip !in base {
      assert more == base + {c.ip};
    } else {
      assert more == base;
    }
  }

  lemma FewerSources(open: multiset<Conn>, c: Conn, vm: string)
    ensures |OpenSources(open - multiset{c}, vm)| <= |OpenSources(open, vm)|
  {
    Smaller(OpenSources(open - multiset{c}, vm), OpenSources(open, vm));
  }

  ghost function LimitStep(limit: nat, s: Step, vm: string, before: int): int {
    if !s.Configure? || s.vm != vm || (s.limit.Some? && s.limit.value < 0) then before
    else if s.limit.None? then limit
    else s.limit.value
  }

  lemma ReadsNext(limit: nat, steps: seq<Step>, n: nat, vm: string)
    requires 0 < n <= |steps|
    ensures forall k :: ReadsWithin(limit, steps, n, vm, k) ==>
      && ReadsWithin(limit, steps, n - 1, vm, k)
      && (steps[n - 1].ReadLimit? && steps[n - 1].vm == vm ==> 0 < LimitAfter(limit, steps, n - 1, vm) <= k)
  {
    hide LimitAfter;
  }

  /** An instance given the limit k, and no other later, stays within it; so does one that
      is never given any under a global limit of k. */
  lemma ConstantLimit(limit: nat, steps: seq<Step>, vm: string, k: nat)
    requires k > 0 && forall i :: 0 <= i < |steps| && steps[i].Configure? && steps[i].vm == vm ==> steps[i].limit == Some(k)
    requires limit == k || (steps != [] && steps[0] == Configure(vm, Some(k)))
    ensures ReadsWithin(limit, steps, |steps|, vm, k)
  {
    forall i | 0 <= i < |steps| && steps[i].ReadLimit? && steps[i].vm == vm ensures LimitAfter(limit, steps, i, vm) == k {
      StaysAt(limit, steps, i, vm, k);
    }
  }

  lemma {:induction false} StaysAt(limit: nat, steps: seq<Step>, n: nat, vm: string, k: nat)
    requires n <= |steps| && forall i :: 0 <= i < |steps| && steps[i].Configure? && steps[i].vm == vm ==> steps[i].limit == Some(k)
    requires limit == k || (n > 0 && steps[0] == Configure(vm, Some(k)))
    ensures LimitAfter(limit, steps, n, vm) == k
  {
    if n > 1 || (n == 1 && limit == k) {
      StaysAt(limit, steps, n - 1, vm, k);
    }
  }
}
