/** Resource history of the instances: raw samples, kept for two days, and the ten-minute
    rollups they are folded into, kept for thirty. */
module History {
  import opened Wrappers
  import opened Numbers

  const RAW_KEEP: nat := 172800
  const ROLLUP_SECS: nat := 600
  const ROLLUP_KEEP: nat := 2592000

  /** Instance and unix time: the primary key of both tables. */
  datatype Key = Key(vm: string, ts: nat)

  datatype Sample = Sample(
    cpu: real, mem: nat, disk: nat, rd: real, wr: real, rio: real, wio: real, rx: real, tx: real, rxp: real, txp: real,
    tcp: Option<real>, udp: Option<real>, ips: Option<real>)

  /** None is NULL. */
  datatype Rollup = Rollup(
    cpu: Option<real>, mem: Option<int>, disk: Option<real>, rd: Option<real>, wr: Option<real>, rio: Option<real>,
    wio: Option<real>, rx: Option<real>, tx: Option<real>, rxp: Option<real>, txp: Option<real>,
    cpuMax: Option<real>, rxMax: Option<real>, txMax: Option<real>, wrMax: Option<real>,
    tcp: Option<real>, udp: Option<real>, ips: Option<real>, connsMax: Option<real>)

  // ---------- aggregates ----------

  type Column = Sample -> Option<real>

  function Cpu(s: Sample): Option<real> { Some(s.cpu) }
  function Rx(s: Sample): Option<real> { Some(s.rx) }
  function Tx(s: Sample): Option<real> { Some(s.tx) }
  function Wr(s: Sample): Option<real> { Some(s.wr) }

  function Mem(s: Sample): Option<real> { Some(s.mem as real) }
  function Disk(s: Sample): Option<real> { Some(s.disk as real) }
  function Rd(s: Sample): Option<real> { Some(s.rd) }
  function Rio(s: Sample): Option<real> { Some(s.rio) }
  function Wio(s: Sample): Option<real> { Some(s.wio) }
  function Rxp(s: Sample): Option<real> { Some(s.rxp) }
  function Txp(s: Sample): Option<real> { Some(s.txp) }
  function Tcp(s: Sample): Option<real> { s.tcp }
  function Udp(s: Sample): Option<real> { s.udp }
  function Ips(s: Sample): Option<real> { s.ips }

  /** Connections: TCP plus UDP, where an unmeasured UDP counts as none. */
  function Conns(s: Sample): Option<real> {
    if s.tcp.None? then None else Some(s.tcp.value + if s.udp.Some? then s.udp.value else 0.0)
  }

  function Total(rows: seq<Sample>, f: Column): real {
    if rows == [] then 0.0
    else
      var v := f(rows[|rows| - 1]);
      Total(rows[..|rows| - 1], f) + if v.Some? then v.value else 0.0
  }

  function Count(rows: seq<Sample>, f: Column): nat {
    if rows == [] then 0 else Count(rows[..|rows| - 1], f) + if f(rows[|rows| - 1]).Some? then 1 else 0
  }

  /** AVG: of the values that are not NULL, NULL when there are none. */
  function Avg(rows: seq<Sample>, f: Column): Option<real> {
    var n := Count(rows, f);
    if n == 0 then None else Some(Total(rows, f) / n as real)
  }

  /** MAX: of the values that are not NULL, NULL when there are none. */
  function Peak(rows: seq<Sample>, f: Column): Option<real> {
    if rows == [] then None
    else
      var p, v := Peak(rows[..|rows| - 1], f), f(rows[|rows| - 1]);
      if v.None? then p else if p.None? || p.value < v.value then v else p
  }

  function Aggregate(rows: seq<Sample>): Rollup {
    var mem := Avg(rows, Mem);
    Rollup(Avg(rows, Cpu), if mem.None? then None else Some(mem.value.Floor), Peak(rows, Disk), Avg(rows, Rd), Avg(rows, Wr),
           Avg(rows, Rio), Avg(rows, Wio), Avg(rows, Rx), Avg(rows, Tx), Avg(rows, Rxp), Avg(rows, Txp),
           Peak(rows, Cpu), Peak(rows, Rx), Peak(rows, Tx), Peak(rows, Wr),
           Avg(rows, Tcp), Avg(rows, Udp), Avg(rows, Ips), Peak(rows, Conns))
  }

  // ---------- what the aggregates mean ----------

  /** The sum of the differences of all values from m. */
  function Deviation(rows: seq<Sample>, f: Column, m: real): real {
    if rows == [] then 0.0
    else (if f(rows[0]).Some? then f(rows[0]).value - m else 0.0) + Deviation(rows[1..], f, m)
  }

  /** The mean is there if a value is, and the values' differences from it cancel out. */
  ghost predicate IsMean(rows: seq<Sample>, f: Column, a: Option<real>) {
    && (a.Some? <==> exists s :: s in rows && f(s).Some?)
    && (a.Some? ==> Deviation(rows, f, a.value) == 0.0)
  }

  lemma {:induction false} TotalAppend(a: seq<Sample>, b: seq<Sample>, f: Column)
    ensures Total(a + b, f) == Total(a, f) + Total(b, f) && Count(a + b, f) == Count(a, f) + Count(b, f)
  {
    if b == [] {
      assert a + b == a;
    } else {
      var init := b[..|b| - 1];
      TotalAppend(a, init, f);
      assert (a + b)[..|a + b| - 1] == a + init;
    }
  }

  /** n times x. */
  function Times(n: nat, x: real): real {
    n as real * x
  }

  lemma {:induction false} DeviationForm(rows: seq<Sample>, f: Column, m: real)
    ensures Deviation(rows, f, m) == Total(rows, f) - Times(Count(rows, f), m)
  {
    FewTimes(m);
    hide Times;
    if rows != [] {
      var rest := rows[1..];
      DeviationForm(rest, f, m);
      assert rows == [rows[0]] + rest;
      TotalAppend([rows[0]], rest, f);
      OneRow(rows[0], f);
      hide Total, Count;
      Distribute(Count([rows[0]], f), Count(rest, f), m);
    }
  }

  lemma Distribute(a: nat, b: nat, m: real)
    ensures Times(a + b, m) == Times(a, m) + Times(b, m)
  {
  }

  lemma FewTimes(m: real)
    ensures Times(0, m) == 0.0 && Times(1, m) == m
  {
  }

  lemma OneRow(s: Sample, f: Column)
    ensures Count([s], f) == (if f(s).Some? then 1 else 0) && Total([s], f) == if f(s).Some? then f(s).value else 0.0
    ensures Avg([s], f) == f(s) && Peak([s], f) == f(s)
  {
    assert [s][..0] == [];
  }

  lemma {:induction false} CountMeans(rows: seq<Sample>, f: Column)
    ensures Count(rows, f) > 0 <==> exists s :: s in rows && f(s).Some?
  {
    if rows != [] {
      var init, s := rows[..|rows| - 1], rows[|rows| - 1];
      CountMeans(init, f);
      assert rows == init + [s];
    }
  }

  lemma AvgMeans(rows: seq<Sample>, f: Column)
    ensures IsMean(rows, f, Avg(rows, f))
  {
    CountMeans(rows, f);
    hide Times;
    if Count(rows, f) > 0 {
      DeviationForm(rows, f, Avg(rows, f).value);
      AvgTimes(rows, f);
    }
    hide Total, Count, Deviation;
  }

  /** An average over more rows weighs the averages by their counts. */
  lemma AvgCombines(a: seq<Sample>, b: seq<Sample>, f: Column)
    requires Count(a, f) > 0 && Count(b, f) > 0
    ensures Avg(a + b, f).Some?
    ensures Times(Count(a, f) + Count(b, f), Avg(a + b, f).value)
         == Times(Count(a, f), Avg(a, f).value) + Times(Count(b, f), Avg(b, f).value)
  {
    hide Times, Total, Count, Avg;
    TotalAppend(a, b, f);
    AvgTimes(a, f);
    AvgTimes(b, f);
    AvgTimes(a + b, f);
  }

  lemma AvgTimes(rows: seq<Sample>, f: Column)
    requires Count(rows, f) > 0
    ensures Avg(rows, f).Some? && Times(Count(rows, f), Avg(rows, f).value) == Total(rows, f)
  {
    hide Total, Count, Times;
    TimesQuotient(Total(rows, f), Count(rows, f));
  }

  lemma TimesQuotient(x: real, n: nat)
    requires n > 0
    ensures Times(n, x / n as real) == x
  {
  }

  /** Column by column a rollup is the mean or the peak of that column; memory is cut down to
      a whole number. */
  lemma ColumnsMean(rows: seq<Sample>)
    ensures var r := Aggregate(rows);
      && IsMean(rows, Cpu, r.cpu) && IsMean(rows, Rd, r.rd) && IsMean(rows, Wr, r.wr) && IsMean(rows, Rio, r.rio)
      && IsMean(rows, Wio, r.wio) && IsMean(rows, Rx, r.rx) && IsMean(rows, Tx, r.tx) && IsMean(rows, Rxp, r.rxp)
      && IsMean(rows, Txp, r.txp) && IsMean(rows, Tcp, r.tcp) && IsMean(rows, Udp, r.udp) && IsMean(rows, Ips, r.ips)
    ensures var r := Aggregate(rows);
      && IsPeak(rows, Disk, r.disk) && IsPeak(rows, Cpu, r.cpuMax) && IsPeak(rows, Rx, r.rxMax) && IsPeak(rows, Tx, r.txMax)
      && IsPeak(rows, Wr, r.wrMax) && IsPeak(rows, Conns, r.connsMax)
    ensures var r := Aggregate(rows);
      exists m :: IsMean(rows, Mem, m) && (m.None? <==> r.mem.None?)
                  && (m.Some? ==> r.mem.value as real <= m.value < r.mem.value as real + 1.0)
  {
    AvgMeans(rows, Cpu);
    AvgMeans(rows, Rd);
    AvgMeans(rows, Wr);
    AvgMeans(rows, Rio);
    AvgMeans(rows, Wio);
    AvgMeans(rows, Rx);
    AvgMeans(rows, Tx);
    AvgMeans(rows, Rxp);
    AvgMeans(rows, Txp);
    AvgMeans(rows, Tcp);
    AvgMeans(rows, Udp);
    AvgMeans(rows, Ips);
    AvgMeans(rows, Mem);
    PeakMeans(rows, Disk);
    PeakMeans(rows, Cpu);
    PeakMeans(rows, Rx);
    PeakMeans(rows, Tx);
    PeakMeans(rows, Wr);
    PeakMeans(rows, Conns);
    hide Avg, Peak, IsMean, IsPeak;
  }

  /** The rollup of one sample is that sample. */
  lemma SingleSample(s: Sample)
    ensures Aggregate([s]) == Rollup(
      Some(s.cpu), Some(s.mem as int), Some(s.disk as real), Some(s.rd), Some(s.wr), Some(s.rio), Some(s.wio), Some(s.rx), Some(s.tx),
      Some(s.rxp), Some(s.txp), Some(s.cpu), Some(s.rx), Some(s.tx), Some(s.wr), s.tcp, s.udp, s.ips,
      if s.tcp.None? then None else if s.udp.None? then s.tcp else Some(s.tcp.value + s.udp.value))
  {
    OneRow(s, Cpu);
    OneRow(s, Mem);
    OneRow(s, Disk);
    OneRow(s, Rd);
    OneRow(s, Wr);
    OneRow(s, Rio);
    OneRow(s, Wio);
    OneRow(s, Rx);
    OneRow(s, Tx);
    OneRow(s, Rxp);
    OneRow(s, Txp);
    OneRow(s, Tcp);
    OneRow(s, Udp);
    OneRow(s, Ips);
    OneRow(s, Conns);
    hide Avg, Peak, Count, Total;
  }

  /** The peak is one of the values and none is above it. */
  ghost predicate IsPeak(rows: seq<Sample>, f: Column, p: Option<real>) {
    && (forall s :: s in rows && f(s).Some? ==> p.Some? && f(s).value <= p.value)
    && (p.Some? ==> exists s :: s in rows && f(s) == p)
  }

  lemma {:induction false} PeakMeans(rows: seq<Sample>, f: Column)
    ensures IsPeak(rows, f, Peak(rows, f))
  {
    if rows != [] {
      var init, s := rows[..|rows| - 1], rows[|rows| - 1];
      PeakMeans(init, f);
      assert rows == init + [s];
      assert s in rows && forall x :: x in init ==> x in rows;
    }
  }

  lemma {:induction false} TotalBelow(rows: seq<Sample>, f: Column, m: real)
    requires forall s :: s in rows && f(s).Some? ==> f(s).value <= m
    ensures Total(rows, f) <= Count(rows, f) as real * m
  {
    if rows != [] {
      var init, s := rows[..|rows| - 1], rows[|rows| - 1];
      assert forall x :: x in init ==> x in rows;
      assert s in rows;
      TotalBelow(init, f, m);
      var n := Count(init, f);
      assert (n + 1) as real * m == n as real * m + m;
    }
  }

  /** An average never exceeds its peak, and is there exactly when the peak is. */
  lemma AvgBelowPeak(rows: seq<Sample>, f: Column)
    ensures Avg(rows, f).Some? <==> Peak(rows, f).Some?
    ensures Avg(rows, f).Some? ==> Avg(rows, f).value <= Peak(rows, f).value
  {
    PeakMeans(rows, f);
    CountPeak(rows, f);
    var n := Count(rows, f);
    if n > 0 {
      var p := Peak(rows, f).value;
      TotalBelow(rows, f, p);
      Divided(Total(rows, f), n, p);
    }
  }

  lemma Divided(total: real, n: nat, p: real)
    requires n > 0 && total <= n as real * p
    ensures total / n as real <= p
  {
  }

  lemma {:induction false} CountPeak(rows: seq<Sample>, f: Column)
    ensures Count(rows, f) > 0 <==> Peak(rows, f).Some?
  {
    if rows != [] { CountPeak(rows[..|rows| - 1], f); }
  }

  // ---------- tables ----------

  function Bucket(ts: nat): nat {
    ts / ROLLUP_SECS * ROLLUP_SECS
  }

  /** The cutoff of a retention period; the subtraction saturates. */
  function Cutoff(now: nat, keep: nat): nat {
    if now < keep then 0 else now - keep
  }

  /** The rows of an instance in [from, from + n), in time order. */
  function Rows(table: map<Key, Sample>, vm: string, from: nat, n: nat): seq<Sample> {
    if n == 0 then []
    else
      var k := Key(vm, from + n - 1);
      Rows(table, vm, from, n - 1) + if k in table then [table[k]] else []
  }

  function Group(k: Key): Key { Key(k.vm, Bucket(k.ts)) }

  function Selected(samples: map<Key, Sample>, last: nat, done: nat): map<Key, Sample> {
    map k | k in samples && last <= k.ts < done :: samples[k]
  }

  function Groups(samples: map<Key, Sample>): set<Key> {
    set k | k in samples :: Group(k)
  }

  /** One rollup per group of the selected samples. */
  function Fold(samples: map<Key, Sample>, last: nat, done: nat): map<Key, Rollup> {
    var rows := Selected(samples, last, done);
    map g | g in Groups(rows) :: Aggregate(Rows(rows, g.vm, g.ts, ROLLUP_SECS))
  }

  function Newer<T>(table: map<Key, T>, cutoff: nat): map<Key, T> {
    map k | k in table && k.ts >= cutoff :: table[k]
  }

  function Others<T>(table: map<Key, T>, vm: string): map<Key, T> {
    map k | k in table && k.vm != vm :: table[k]
  }

  // ---------- what the tables must agree with ----------

  /** The rollups of everything logged, computed anew at `now`. */
  ghost function Recomputed(log: map<Key, Sample>, now: nat): map<Key, Rollup> {
    map g | g in Groups(log) && g.ts + ROLLUP_SECS <= now && g.ts >= Cutoff(now, ROLLUP_KEEP) ::
      Aggregate(Rows(log, g.vm, g.ts, ROLLUP_SECS))
  }

  /** No rollup's bucket ends after ts. */
  ghost predicate Past(rollups: map<Key, Rollup>, ts: nat) {
    forall g :: g in rollups ==> g.ts + ROLLUP_SECS <= ts
  }

  ghost predicate Logged(samples: map<Key, Sample>, log: map<Key, Sample>) {
    forall k :: k in samples ==> k in log && log[k] == samples[k]
  }

  /** Each stored rollup is the aggregate of all that was logged in its bucket. */
  ghost predicate Agree(rollups: map<Key, Rollup>, log: map<Key, Sample>, spoiled: set<Key>) {
    forall g :: g in rollups && g !in spoiled ==> rollups[g] == Aggregate(Rows(log, g.vm, g.ts, ROLLUP_SECS))
  }

  /** Folded buckets are whole, over, not empty, and only expiry takes their rollups. */
  ghost predicate Sealed(rollups: map<Key, Rollup>, log: map<Key, Sample>, sealed: set<Key>, clock: nat) {
    && rollups.Keys <= sealed <= Groups(log)
    && (forall g :: g in sealed ==> g.ts + ROLLUP_SECS <= clock)
    && (forall g :: g in sealed && g !in rollups ==> g.ts < Cutoff(clock, ROLLUP_KEEP))
  }

  /** Whatever is logged outside `settled` is still there to be folded, past every rollup. */
  ghost predicate Pending(samples: map<Key, Sample>, rollups: map<Key, Rollup>, log: map<Key, Sample>, settled: set<Key>) {
    forall k :: k in log && Group(k) !in settled ==> k in samples && Past(rollups, k.ts)
  }

  /** Samples of a folded bucket do not outlive its rollup; only expiry takes samples. */
  ghost predicate Aged(v: View) {
    && (forall k :: k in v.samples && Group(k) in v.sealed ==> Group(k) in v.rollups || Group(k) in v.spoiled)
    && (forall k :: k in v.log && k !in v.samples && Group(k) !in v.spoiled ==> k.ts < Cutoff(v.clock, RAW_KEEP))
  }

  /** Both tables; beside them everything logged since its instance was last forgotten, the
      buckets folded, those spoiled by a sample that came too late or by half a forgetting,
      and the latest time of maintenance. */
  datatype View = View(
    samples: map<Key, Sample>, rollups: map<Key, Rollup>, log: map<Key, Sample>, sealed: set<Key>, spoiled: set<Key>,
    clock: nat)

  ghost predicate Inv(v: View) {
    && Logged(v.samples, v.log) && Agree(v.rollups, v.log, v.spoiled) && Sealed(v.rollups, v.log, v.sealed, v.clock)
    && Pending(v.samples, v.rollups, v.log, v.sealed + v.spoiled) && Aged(v)
  }

  lemma BucketBounds(ts: nat)
    ensures Bucket(ts) <= ts < Bucket(ts) + ROLLUP_SECS && Bucket(ts) % ROLLUP_SECS == 0
  {
  }

  /** Times of one bucket, before and after a multiple of its width. */
  lemma BucketWhole(b: nat, ts: nat)
    requires b % ROLLUP_SECS == 0
    ensures Bucket(ts) == b <==> b <= ts < b + ROLLUP_SECS
  {
  }

  lemma BucketBefore(ts: nat, now: nat)
    requires ts < Bucket(now)
    ensures Bucket(ts) + ROLLUP_SECS <= Bucket(now) <= now
  {
  }

  /** A bucket that is over lies before the current one. */
  lemma BucketOver(ts: nat, now: nat)
    requires Bucket(ts) + ROLLUP_SECS <= now
    ensures ts < Bucket(ts) + ROLLUP_SECS <= Bucket(now)
  {
  }

  lemma GroupAligned(log: map<Key, Sample>, g: Key)
    requires g in Groups(log)
    ensures g.ts % ROLLUP_SECS == 0 && Bucket(g.ts) == g.ts
  {
    var k :| k in log && Group(k) == g;
    BucketBounds(k.ts);
    BucketWhole(g.ts, g.ts);
  }

  lemma {:induction false} RowsAgree(a: map<Key, Sample>, b: map<Key, Sample>, vm: string, from: nat, n: nat)
    requires forall ts :: from <= ts < from + n ==> SameRow(a, b, Key(vm, ts))
    ensures Rows(a, vm, from, n) == Rows(b, vm, from, n)
  {
    if n > 0 {
      assert SameRow(a, b, Key(vm, from + n - 1));
      RowsAgree(a, b, vm, from, n - 1);
    }
  }

  ghost predicate SameRow(a: map<Key, Sample>, b: map<Key, Sample>, k: Key) {
    if k in a then k in b && a[k] == b[k] else k !in b
  }

  // ---------- recording ----------

  /** A sample ahead of every rollup, in a bucket of its instance that was not folded. */
  ghost predicate Timely(v: View, k: Key) {
    Past(v.rollups, k.ts) && Group(k) !in v.sealed
  }

  ghost function With(v: View, k: Key, s: Sample): View {
    v.(samples := v.samples[k := s], log := v.log[k := s])
  }

  lemma Recorded(v: View, k: Key, s: Sample)
    requires Inv(v) && (Timely(v, k) || Group(k) in v.spoiled)
    ensures Inv(With(v, k, s))
  {
    RecordedAgree(v, k, s);
    GroupsGrow(v.log, k, s);
    RecordedPending(v, k, s);
    hide Agree, Bucket, Groups, Pending, Aged, Cutoff;
  }

  lemma RecordedPending(v: View, k: Key, s: Sample)
    requires Inv(v) && (Timely(v, k) || Group(k) in v.spoiled)
    ensures Pending(v.samples[k := s], v.rollups, v.log[k := s], v.sealed + v.spoiled) && Aged(With(v, k, s))
  {
    hide Agree, Bucket, Groups, Sealed, Cutoff, Past;
  }

  lemma GroupsGrow(log: map<Key, Sample>, k: Key, s: Sample)
    ensures Groups(log) <= Groups(log[k := s])
  {
    forall g | g in Groups(log) ensures g in Groups(log[k := s]) {
      var x :| x in log && Group(x) == g;
      assert x in log[k := s];
    }
  }

  /** A sample changes the rows of its own bucket only. */
  lemma RowsElsewhere(log: map<Key, Sample>, k: Key, s: Sample, g: Key)
    requires g.ts % ROLLUP_SECS == 0 && g != Group(k)
    ensures Rows(log[k := s], g.vm, g.ts, ROLLUP_SECS) == Rows(log, g.vm, g.ts, ROLLUP_SECS)
  {
    BucketWhole(g.ts, k.ts);
    RowsAgree(log[k := s], log, g.vm, g.ts, ROLLUP_SECS);
  }

  lemma RecordedAgree(v: View, k: Key, s: Sample)
    requires Inv(v) && (Group(k) !in v.rollups || Group(k) in v.spoiled)
    ensures Agree(v.rollups, v.log[k := s], v.spoiled)
  {
    forall g | g in v.rollups && g !in v.spoiled
      ensures Rows(v.log[k := s], g.vm, g.ts, ROLLUP_SECS) == Rows(v.log, g.vm, g.ts, ROLLUP_SECS)
    {
      GroupAligned(v.log, g);
      RowsElsewhere(v.log, k, s, g);
    }
    hide Rows, Aggregate, Pending, Aged, Sealed, Logged, Group;
  }

  /** Giving more buckets up keeps the rest. */
  lemma SpoiledMore(v: View, more: set<Key>)
    requires Inv(v)
    ensures Inv(v.(spoiled := v.spoiled + more))
  {
    hide Rows, Aggregate, Group, Groups, Past;
  }

  /** The buckets a batch comes too late for. */
  ghost function LateGroups(v: View, batch: seq<(Key, Sample)>): set<Key> {
    set i | 0 <= i < |batch| && !Timely(v, batch[i].0) :: Group(batch[i].0)
  }

  lemma LateOrTimely(v: View, batch: seq<(Key, Sample)>, w: View, i: nat)
    requires i < |batch| && w.rollups == v.rollups && w.sealed == v.sealed && LateGroups(v, batch) <= w.spoiled
    ensures Timely(w, batch[i].0) || Group(batch[i].0) in w.spoiled
  {
    hide Group;
    assert Timely(w, batch[i].0) == Timely(v, batch[i].0);
  }

  // ---------- folding ----------

  /** The boundary the tables hold: the end of the latest rollup, zero without one. */
  ghost predicate IsLast(rollups: map<Key, Rollup>, last: nat) {
    && Past(rollups, last)
    && (last == 0 || exists g :: g in rollups && g.ts + ROLLUP_SECS == last)
  }

  /** Being past every rollup is being past the boundary. */
  lemma LastIsPast(rollups: map<Key, Rollup>, last: nat, ts: nat)
    requires IsLast(rollups, last)
    ensures Past(rollups, ts) <==> last <= ts
  {
  }

  /** A group about to be folded is one of the log's, and its bucket is over. */
  lemma FoldedGroup(v: View, last: nat, now: nat, g: Key)
    requires Inv(v) && g in Groups(Selected(v.samples, last, Bucket(now)))
    ensures g in Groups(v.log) && g.ts % ROLLUP_SECS == 0 && g.ts + ROLLUP_SECS <= Bucket(now) <= now
  {
    var k :| k in Selected(v.samples, last, Bucket(now)) && Group(k) == g;
    BucketBounds(k.ts);
    BucketBefore(k.ts, now);
    assert k in v.log;
    hide Bucket, Agree, Pending, Aged, Sealed;
  }

  /** Unless spoiled it was not folded before. */
  lemma FreshGroup(v: View, last: nat, now: nat, g: Key)
    requires Inv(v) && IsLast(v.rollups, last) && g in Groups(Selected(v.samples, last, Bucket(now))) && g !in v.spoiled
    ensures g !in v.sealed
  {
    var k :| k in Selected(v.samples, last, Bucket(now)) && Group(k) == g;
    BucketBounds(k.ts);
    hide Bucket, Agree, Pending, Sealed, Logged;
  }

  lemma PendingRow(v: View, last: nat, done: nat, k: Key, g: Key)
    requires Inv(v) && IsLast(v.rollups, last) && g !in v.sealed + v.spoiled
    requires k.vm == g.vm && g.ts % ROLLUP_SECS == 0 && g.ts <= k.ts < g.ts + ROLLUP_SECS <= done
    ensures SameRow(Selected(v.samples, last, done), v.log, k)
  {
    BucketWhole(g.ts, k.ts);
    assert Group(k) == g;
    LastIsPast(v.rollups, last, k.ts);
    hide Bucket, Agree, Sealed, Aged, Past;
  }

  /** The rows folded into it are all that was logged in its bucket. */
  lemma FoldedRows(v: View, last: nat, now: nat, g: Key)
    requires Inv(v) && IsLast(v.rollups, last) && g in Groups(Selected(v.samples, last, Bucket(now))) && g !in v.spoiled
    ensures Rows(Selected(v.samples, last, Bucket(now)), g.vm, g.ts, ROLLUP_SECS) == Rows(v.log, g.vm, g.ts, ROLLUP_SECS)
  {
    var done := Bucket(now);
    FreshGroup(v, last, now, g);
    FoldedGroup(v, last, now, g);
    var rows := Selected(v.samples, last, done);
    forall ts | g.ts <= ts < g.ts + ROLLUP_SECS ensures SameRow(rows, v.log, Key(g.vm, ts)) {
      PendingRow(v, last, done, Key(g.vm, ts), g);
    }
    RowsAgree(rows, v.log, g.vm, g.ts, ROLLUP_SECS);
  }

  function Later(a: nat, b: nat): nat {
    if a < b then b else a
  }

  /** The tables after the first statement of maintenance. */
  ghost function Folded(v: View, last: nat, now: nat): View {
    var fold := Fold(v.samples, last, Bucket(now));
    v.(rollups := v.rollups + fold, sealed := v.sealed + fold.Keys, clock := Later(v.clock, now))
  }

  /** Everything outside `settled` lies in the current bucket or after it. */
  ghost predicate CaughtUp(log: map<Key, Sample>, settled: set<Key>, now: nat) {
    forall k :: k in log && Group(k) !in settled ==> k.ts >= Bucket(now)
  }

  lemma FoldedAgree(v: View, last: nat, now: nat)
    requires Inv(v) && IsLast(v.rollups, last)
    ensures Agree(Folded(v, last, now).rollups, v.log, v.spoiled)
  {
    assert Agree(v.rollups, v.log, v.spoiled);
    var fold := Fold(v.samples, last, Bucket(now));
    forall g | g in fold && g !in v.spoiled ensures fold[g] == Aggregate(Rows(v.log, g.vm, g.ts, ROLLUP_SECS)) {
      FoldedRows(v, last, now, g);
    }
    hide Fold, Rows, Aggregate, Inv, IsLast;
    AgreeUnion(v.rollups, fold, v.log, v.spoiled);
  }

  lemma AgreeUnion(rollups: map<Key, Rollup>, fold: map<Key, Rollup>, log: map<Key, Sample>, spoiled: set<Key>)
    requires Agree(rollups, log, spoiled) && Agree(fold, log, spoiled)
    ensures Agree(rollups + fold, log, spoiled)
  {
    hide Rows, Aggregate;
  }

  lemma FoldedSealed(v: View, last: nat, now: nat)
    requires Inv(v)
    ensures var w := Folded(v, last, now); Sealed(w.rollups, w.log, w.sealed, w.clock)
  {
    var fold := Fold(v.samples, last, Bucket(now));
    forall g | g in fold ensures g in Groups(v.log) && g.ts + ROLLUP_SECS <= now {
      FoldedGroup(v, last, now, g);
    }
    hide Pending, Aged, Logged, Agree, IsLast;
    SealedGrows(v.rollups, v.log, v.sealed, v.clock, fold, now);
  }

  lemma SealedGrows(rollups: map<Key, Rollup>, log: map<Key, Sample>, sealed: set<Key>, clock: nat, fold: map<Key, Rollup>, now: nat)
    requires Sealed(rollups, log, sealed, clock)
    requires forall g :: g in fold ==> g in Groups(log) && g.ts + ROLLUP_SECS <= now
    ensures Sealed(rollups + fold, log, sealed + fold.Keys, Later(clock, now))
  {
    hide Groups;
  }

  /** What remains unfolded lies in the current bucket or after it. */
  lemma FoldedCatchesUp(v: View, last: nat, now: nat)
    requires Inv(v) && IsLast(v.rollups, last)
    ensures CaughtUp(v.log, v.sealed + Fold(v.samples, last, Bucket(now)).Keys + v.spoiled, now)
  {
    var done := Bucket(now);
    forall k | k in v.log && Group(k) !in v.sealed + v.spoiled && Group(k) !in Groups(Selected(v.samples, last, done))
      ensures k.ts >= done
    {
      LastIsPast(v.rollups, last, k.ts);
      assert k.ts < done ==> k in Selected(v.samples, last, done);
      hide Bucket, Aged, Logged, Agree, IsLast, Sealed;
    }
    hide Inv, Bucket, Groups, Aggregate, Rows;
  }

  lemma PendingFold(samples: map<Key, Sample>, rollups: map<Key, Rollup>, log: map<Key, Sample>, settled: set<Key>,
                    fold: map<Key, Rollup>, settled': set<Key>, now: nat)
    requires Pending(samples, rollups, log, settled) && CaughtUp(log, settled', now) && settled <= settled'
    requires forall g :: g in fold ==> g.ts + ROLLUP_SECS <= Bucket(now)
    ensures Pending(samples, rollups + fold, log, settled')
  {
    hide Bucket, Group;
  }

  lemma AgedFold(v: View, last: nat, now: nat)
    requires Aged(v)
    ensures Aged(Folded(v, last, now))
  {
    hide Group, Fold;
  }

  lemma FoldedInv(v: View, last: nat, now: nat)
    requires Inv(v) && IsLast(v.rollups, last)
    ensures var w := Folded(v, last, now); Inv(w) && CaughtUp(w.log, w.sealed + w.spoiled, now)
  {
    var fold := Fold(v.samples, last, Bucket(now));
    FoldedAgree(v, last, now);
    FoldedSealed(v, last, now);
    FoldedCatchesUp(v, last, now);
    forall g | g in fold ensures g.ts + ROLLUP_SECS <= Bucket(now) {
      FoldedGroup(v, last, now, g);
    }
    AgedFold(v, last, now);
    hide Fold, Agree, Sealed, Pending, CaughtUp, Aged, Bucket, Logged;
    var settled := v.sealed + fold.Keys + v.spoiled;
    PendingFold(v.samples, v.rollups, v.log, v.sealed + v.spoiled, fold, settled, now);
  }

  /** The tables after the second statement: raw samples expire, all of them folded. */
  ghost function Trimmed(v: View, now: nat): View {
    v.(samples := Newer(v.samples, Cutoff(now, RAW_KEEP)))
  }

  lemma TrimmedInv(v: View, now: nat)
    requires Inv(v) && CaughtUp(v.log, v.sealed + v.spoiled, now) && now <= v.clock
    ensures Inv(Trimmed(v, now))
    ensures forall k :: k in v.samples && k !in Trimmed(v, now).samples ==> Group(k) in v.sealed + v.spoiled
  {
    BucketBounds(now);
    hide Agree, Sealed, Group, Past, Bucket;
  }

  /** The tables after the third: rollups expire, with no sample of theirs left. */
  ghost function Expired(v: View, now: nat): View {
    v.(rollups := Newer(v.rollups, Cutoff(now, ROLLUP_KEEP)))
  }

  lemma ExpiredAgree(rollups: map<Key, Rollup>, log: map<Key, Sample>, spoiled: set<Key>, cutoff: nat)
    requires Agree(rollups, log, spoiled)
    ensures Agree(Newer(rollups, cutoff), log, spoiled)
  {
    hide Aggregate, Rows;
  }

  lemma ExpiredSealed(rollups: map<Key, Rollup>, log: map<Key, Sample>, sealed: set<Key>, clock: nat, now: nat)
    requires Sealed(rollups, log, sealed, clock) && now <= clock
    ensures Sealed(Newer(rollups, Cutoff(now, ROLLUP_KEEP)), log, sealed, clock)
  {
    hide Groups;
  }

  lemma ExpiredPending(samples: map<Key, Sample>, rollups: map<Key, Rollup>, log: map<Key, Sample>, settled: set<Key>, cutoff: nat)
    requires Pending(samples, rollups, log, settled)
    ensures Pending(samples, Newer(rollups, cutoff), log, settled)
  {
    hide Group;
  }

  lemma ExpiredAged(v: View, now: nat)
    requires Aged(v) && forall k :: k in v.samples ==> k.ts >= Cutoff(now, RAW_KEEP)
    ensures Aged(Expired(v, now))
  {
    forall k | k in v.samples ensures Group(k).ts >= Cutoff(now, ROLLUP_KEEP) {
      BucketBounds(k.ts);
    }
    hide Group;
  }

  lemma ExpiredInv(v: View, now: nat)
    requires Inv(v) && now <= v.clock && forall k :: k in v.samples ==> k.ts >= Cutoff(now, RAW_KEEP)
    ensures Inv(Expired(v, now))
  {
    ExpiredAged(v, now);
    hide Agree, Sealed, Pending, Aged, Cutoff;
    var cutoff := Cutoff(now, ROLLUP_KEEP);
    ExpiredAgree(v.rollups, v.log, v.spoiled, cutoff);
    ExpiredSealed(v.rollups, v.log, v.sealed, v.clock, now);
    ExpiredPending(v.samples, v.rollups, v.log, v.sealed + v.spoiled, cutoff);
    hide Newer;
  }

  // ---------- what maintenance achieves ----------

  /** The part of a table outside spoiled buckets. */
  ghost function Sound(table: map<Key, Sample>, spoiled: set<Key>): map<Key, Sample> {
    map k | k in table && Group(k) !in spoiled :: table[k]
  }

  /** Outside spoiled buckets both tables are what the log and the time say. */
  ghost predicate Maintained(v: View, now: nat) {
    && Sound(v.samples, v.spoiled) == Newer(Sound(v.log, v.spoiled), Cutoff(now, RAW_KEEP))
    && v.rollups - v.spoiled == Recomputed(v.log, now) - v.spoiled
  }

  /** Without spoiled buckets that is all of both. */
  lemma MaintainedAll(v: View, now: nat)
    requires Maintained(v, now) && v.spoiled == {}
    ensures v.samples == Newer(v.log, Cutoff(now, RAW_KEEP)) && v.rollups == Recomputed(v.log, now)
  {
    SoundAll(v.samples);
    SoundAll(v.log);
    hide Sound, Newer, Recomputed, Cutoff;
    assert v.rollups - {} == v.rollups && Recomputed(v.log, now) - {} == Recomputed(v.log, now);
  }

  lemma SoundAll(table: map<Key, Sample>)
    ensures Sound(table, {}) == table
  {
    hide Group;
  }

  /** After maintenance exactly the samples of the last two days are left, and of the buckets
      that are over exactly those of the last thirty have a rollup. */
  lemma MaintainedMeans(v: View, now: nat)
    requires Maintained(v, now) && v.spoiled == {}
    ensures forall k :: k in v.log ==> (k in v.samples <==> now - k.ts <= 2 * 86400)
    ensures forall g :: g in v.rollups <==> g in Groups(v.log) && 600 <= now - g.ts <= 30 * 86400
  {
    MaintainedAll(v, now);
    hide Maintained, Groups, Rows, Aggregate;
  }

  /** Expired, the raw samples are the recent part of the log. */
  lemma SamplesDetermined(v: View)
    requires Inv(v) && forall k :: k in v.samples ==> k.ts >= Cutoff(v.clock, RAW_KEEP)
    ensures Sound(v.samples, v.spoiled) == Newer(Sound(v.log, v.spoiled), Cutoff(v.clock, RAW_KEEP))
  {
    hide Agree, Sealed, Pending, Group;
  }

  /** Caught up and expired, the rollups are those of the whole log computed anew. */
  lemma RollupsDetermined(v: View)
    requires Inv(v) && CaughtUp(v.log, v.sealed + v.spoiled, v.clock)
    requires forall g :: g in v.rollups ==> g.ts >= Cutoff(v.clock, ROLLUP_KEEP)
    ensures v.rollups - v.spoiled == Recomputed(v.log, v.clock) - v.spoiled
  {
    forall g | g in Groups(v.log) && g.ts + ROLLUP_SECS <= v.clock ensures g in v.sealed + v.spoiled {
      var k :| k in v.log && Group(k) == g;
      BucketOver(k.ts, v.clock);
    }
    hide Groups, Pending, Aged, CaughtUp, Logged;
    RecomputedEqual(v.rollups, v.log, v.sealed, v.spoiled, v.clock);
  }

  lemma RecomputedEqual(rollups: map<Key, Rollup>, log: map<Key, Sample>, sealed: set<Key>, spoiled: set<Key>, clock: nat)
    requires Agree(rollups, log, spoiled) && Sealed(rollups, log, sealed, clock)
    requires forall g :: g in Groups(log) && g.ts + ROLLUP_SECS <= clock ==> g in sealed + spoiled
    requires forall g :: g in rollups ==> g.ts >= Cutoff(clock, ROLLUP_KEEP)
    ensures rollups - spoiled == Recomputed(log, clock) - spoiled
  {
    assert (rollups - spoiled).Keys == (Recomputed(log, clock) - spoiled).Keys by {
      hide Groups, Agree, Cutoff;
    }
    hide Groups, Rows, Aggregate, Cutoff, Sealed;
  }

  lemma NewerCut<T>(table: map<Key, T>, cutoff: nat)
    ensures forall k :: k in Newer(table, cutoff) ==> k in table && k.ts >= cutoff
    ensures (forall k :: k in table ==> k.ts >= cutoff) ==> Newer(table, cutoff) == table
  {
  }

  /** Maintenance at this time has nothing to fold and nothing to expire. */
  ghost predicate Idle(samples: map<Key, Sample>, rollups: map<Key, Rollup>, now: nat) {
    && (forall k :: k in samples ==> k.ts >= Cutoff(now, RAW_KEEP) && (k.ts < Bucket(now) ==> !Past(rollups, k.ts)))
    && (forall g :: g in rollups ==> g.ts >= Cutoff(now, ROLLUP_KEEP))
  }

  lemma FoldEmpty(samples: map<Key, Sample>, last: nat, done: nat)
    requires forall k :: k in samples ==> k.ts < last || k.ts >= done
    ensures Fold(samples, last, done) == map[]
  {
    assert Selected(samples, last, done) == map[];
    hide Rows, Aggregate;
  }

  lemma NothingToDo(samples: map<Key, Sample>, rollups: map<Key, Rollup>, last: nat, now: nat)
    requires IsLast(rollups, last) && Idle(samples, rollups, now)
    ensures Fold(samples, last, Bucket(now)) == map[]
    ensures Newer(samples, Cutoff(now, RAW_KEEP)) == samples && Newer(rollups, Cutoff(now, ROLLUP_KEEP)) == rollups
  {
    forall k | k in samples ensures k.ts < last || k.ts >= Bucket(now) {
      LastIsPast(rollups, last, k.ts);
    }
    hide Bucket, IsLast, Past, Fold, Cutoff;
    FoldEmpty(samples, last, Bucket(now));
    NewerCut(samples, Cutoff(now, RAW_KEEP));
    NewerCut(rollups, Cutoff(now, ROLLUP_KEEP));
  }

  /** Maintenance leaves itself nothing to do, whatever the tables were. */
  lemma MaintenanceIsIdle(samples: map<Key, Sample>, rollups: map<Key, Rollup>, last: nat, now: nat)
    requires IsLast(rollups, last)
    ensures Idle(Newer(samples, Cutoff(now, RAW_KEEP)),
                 Newer(rollups + Fold(samples, last, Bucket(now)), Cutoff(now, ROLLUP_KEEP)), now)
  {
    var fold := Fold(samples, last, Bucket(now));
    var left := Newer(rollups + fold, Cutoff(now, ROLLUP_KEEP));
    forall k | k in samples && Cutoff(now, RAW_KEEP) <= k.ts < Bucket(now) ensures !Past(left, k.ts) {
      IdleSample(samples, rollups, last, now, k);
    }
    hide Past, Bucket, Cutoff, Fold, IsLast;
  }

  lemma IdleSample(samples: map<Key, Sample>, rollups: map<Key, Rollup>, last: nat, now: nat, k: Key)
    requires IsLast(rollups, last) && k in samples && Cutoff(now, RAW_KEEP) <= k.ts < Bucket(now)
    ensures !Past(Newer(rollups + Fold(samples, last, Bucket(now)), Cutoff(now, ROLLUP_KEEP)), k.ts)
  {
    var all := rollups + Fold(samples, last, Bucket(now));
    var g: Key;
    if last <= k.ts {
      FoldHas(samples, last, Bucket(now), k);
      BucketBounds(k.ts);
      g := Group(k);
    } else {
      LastIsPast(rollups, last, k.ts);
      hide Fold, Bucket;
      g :| g in rollups && g.ts + ROLLUP_SECS > k.ts;
    }
    hide Fold, Bucket, IsLast;
    StillThere(all, g, now, k.ts);
  }

  lemma FoldHas(samples: map<Key, Sample>, last: nat, done: nat, k: Key)
    requires k in samples && last <= k.ts < done
    ensures Group(k) in Fold(samples, last, done)
  {
    assert k in Selected(samples, last, done);
    hide Rows, Aggregate, Bucket;
  }

  /** A rollup that ends after a sample young enough to be kept is young enough too. */
  lemma StillThere(rollups: map<Key, Rollup>, g: Key, now: nat, ts: nat)
    requires g in rollups && g.ts + ROLLUP_SECS > ts >= Cutoff(now, RAW_KEEP)
    ensures !Past(Newer(rollups, Cutoff(now, ROLLUP_KEEP)), ts)
  {
    assert g in Newer(rollups, Cutoff(now, ROLLUP_KEEP));
  }

  // ---------- forgetting ----------

  ghost function OtherKeys(keys: set<Key>, vm: string): set<Key> {
    set g | g in keys && g.vm != vm
  }

  /** Everything of an instance goes, its log with it. */
  ghost function Forgotten(v: View, vm: string): View {
    View(Others(v.samples, vm), Others(v.rollups, vm), Others(v.log, vm), OtherKeys(v.sealed, vm), OtherKeys(v.spoiled, vm), v.clock)
  }

  lemma RowsOfOthers(log: map<Key, Sample>, vm: string, g: Key)
    requires g.vm != vm
    ensures Rows(Others(log, vm), g.vm, g.ts, ROLLUP_SECS) == Rows(log, g.vm, g.ts, ROLLUP_SECS)
  {
    forall ts | g.ts <= ts < g.ts + ROLLUP_SECS ensures SameRow(Others(log, vm), log, Key(g.vm, ts)) {
    }
    hide Others, SameRow;
    RowsAgree(Others(log, vm), log, g.vm, g.ts, ROLLUP_SECS);
  }

  lemma ForgottenAgree(rollups: map<Key, Rollup>, log: map<Key, Sample>, spoiled: set<Key>, vm: string)
    requires Agree(rollups, log, spoiled)
    ensures Agree(Others(rollups, vm), Others(log, vm), OtherKeys(spoiled, vm))
  {
    var kept, rest := Others(rollups, vm), Others(log, vm);
    forall g | g in kept && g !in OtherKeys(spoiled, vm) ensures kept[g] == Aggregate(Rows(rest, g.vm, g.ts, ROLLUP_SECS)) {
      RowsOfOthers(log, vm, g);
      hide Rows, Aggregate;
    }
  }

  lemma ForgottenSealed(v: View, vm: string)
    requires Inv(v)
    ensures var w := Forgotten(v, vm); Sealed(w.rollups, w.log, w.sealed, w.clock)
  {
    var w := Forgotten(v, vm);
    forall g | g in w.sealed ensures g in Groups(w.log) {
      var k :| k in v.log && Group(k) == g;
      assert k in w.log;
    }
    hide Agree, Pending, Aged, Logged, Groups;
  }

  lemma ForgottenPending(v: View, vm: string)
    requires Inv(v)
    ensures var w := Forgotten(v, vm); Pending(w.samples, w.rollups, w.log, w.sealed + w.spoiled)
  {
    hide Agree, Sealed, Bucket, Aged, Logged;
  }

  lemma ForgottenAged(v: View, vm: string)
    requires Inv(v)
    ensures Logged(Others(v.samples, vm), Others(v.log, vm)) && Aged(Forgotten(v, vm))
  {
    hide Agree, Sealed, Bucket, Pending, Cutoff;
  }

  lemma ForgottenInv(v: View, vm: string)
    requires Inv(v)
    ensures Inv(Forgotten(v, vm))
  {
    ForgottenAgree(v.rollups, v.log, v.spoiled, vm);
    ForgottenSealed(v, vm);
    ForgottenPending(v, vm);
    ForgottenAged(v, vm);
    hide Agree, Sealed, Pending, Aged, Logged;
  }

  /** The buckets an instance has samples logged in. */
  ghost function GroupsOf(log: map<Key, Sample>, vm: string): set<Key> {
    set g | g in Groups(log) && g.vm == vm
  }

  /** Only the first of the two deletions: the instance's buckets are spoiled until it is
      forgotten for good. */
  ghost function HalfForgotten(v: View, vm: string): View {
    v.(samples := Others(v.samples, vm), spoiled := v.spoiled + GroupsOf(v.log, vm))
  }

  lemma HalfForgottenInv(v: View, vm: string)
    requires Inv(v)
    ensures Inv(HalfForgotten(v, vm))
  {
    var gone := GroupsOf(v.log, vm);
    var w := v.(spoiled := v.spoiled + gone);
    SpoiledMore(v, gone);
    forall k | k in w.log && k.vm == vm ensures Group(k) in w.spoiled {
      assert Group(k) in Groups(v.log);
    }
    hide Agree, Sealed, Past, Groups, Group, Cutoff, GroupsOf;
    HalfDeleted(w, vm);
  }

  lemma HalfDeleted(v: View, vm: string)
    requires Inv(v) && forall k :: k in v.log && k.vm == vm ==> Group(k) in v.spoiled
    ensures Inv(v.(samples := Others(v.samples, vm)))
  {
    hide Agree, Sealed, Past, Group, Cutoff;
  }

  // ---------- late samples ----------

  /** A sample is timely if and only if recording it, whatever it holds, keeps the invariant
      without giving its bucket up. */
  lemma TimelyIff(v: View, k: Key)
    requires Inv(v) && Group(k) !in v.spoiled
    ensures Timely(v, k) <==> forall s :: KeepsInv(v, k, s)
  {
    if Timely(v, k) {
      forall s ensures KeepsInv(v, k, s) {
        Recorded(v, k, s);
        hide Inv;
      }
    } else {
      var s := Above(v, k);
      LateBreaks(v, k, s);
      hide Inv;
      assert !KeepsInv(v, k, s);
    }
  }

  ghost predicate KeepsInv(v: View, k: Key, s: Sample) {
    Inv(With(v, k, s))
  }

  ghost predicate KeepsAgree(v: View, k: Key, s: Sample) {
    Agree(v.rollups, v.log[k := s], v.spoiled)
  }

  /** A sample above the peak stored for the key's bucket. */
  ghost function Above(v: View, k: Key): Sample {
    var g := Group(k);
    var cpu := if g in v.rollups && v.rollups[g].cpuMax.Some? then v.rollups[g].cpuMax.value + 1.0 else 0.0;
    Sample(cpu, 0, 0, 0.0, 0.0, 0.0, 0.0, 0.0, 0.0, 0.0, 0.0, None, None, None)
  }

  /** It makes a stored rollup disagree, or its bucket one that is never folded, or one whose
      rollup has expired. */
  lemma LateBreaks(v: View, k: Key, s: Sample)
    requires Inv(v) && Group(k) !in v.spoiled && !Timely(v, k) && s == Above(v, k)
    ensures !Inv(With(v, k, s))
  {
    if Group(k) in v.rollups {
      LateDisagrees(v.rollups, v.log, v.spoiled, k, s);
    } else if Group(k) in v.sealed {
      assert k in With(v, k, s).samples;
      hide Bucket, Agree, Sealed, Pending, Logged;
    } else {
      assert k in With(v, k, s).log;
      hide Bucket, Agree, Sealed, Aged, Logged;
    }
  }

  lemma LateDisagrees(rollups: map<Key, Rollup>, log: map<Key, Sample>, spoiled: set<Key>, k: Key, s: Sample)
    requires Group(k) in rollups && Group(k) !in spoiled
    requires rollups[Group(k)].cpuMax.Some? ==> s.cpu > rollups[Group(k)].cpuMax.value
    ensures !Agree(rollups, log[k := s], spoiled)
  {
    BucketBounds(k.ts);
    var g, log' := Group(k), log[k := s];
    RowsHave(log', g.vm, g.ts, ROLLUP_SECS, k.ts, s);
    PeakAbove(Rows(log', g.vm, g.ts, ROLLUP_SECS), s);
    hide Bucket, Group, Rows, Aggregate;
    assert Aggregate(Rows(log', g.vm, g.ts, ROLLUP_SECS)).cpuMax != rollups[g].cpuMax;
  }

  /** The stored rollups survive any sample for a key if and only if its bucket has none. */
  lemma AgreeIff(v: View, k: Key)
    requires Inv(v) && Group(k) !in v.spoiled
    ensures Group(k) !in v.rollups <==> forall s :: KeepsAgree(v, k, s)
  {
    if Group(k) !in v.rollups {
      forall s ensures KeepsAgree(v, k, s) {
        RecordedAgree(v, k, s);
        hide Agree;
      }
    } else {
      LateDisagrees(v.rollups, v.log, v.spoiled, k, Above(v, k));
      hide Agree, Above;
      assert !KeepsAgree(v, k, Above(v, k));
    }
  }

  /** A late sample whose bucket has not been folded is lost: maintenance, at whatever time,
      stores no rollup for it while the boundary stands. */
  lemma LateLost(v: View, last: nat, now: nat, k: Key)
    requires Inv(v) && IsLast(v.rollups, last) && k.ts < last && Group(k) !in v.sealed
    ensures Group(k) !in Folded(v, last, now).rollups
  {
    LastAligned(v, last);
    if Group(k) in Groups(Selected(v.samples, last, Bucket(now))) {
      var x :| x in Selected(v.samples, last, Bucket(now)) && Group(x) == Group(k);
      BucketWhole(last, last);
      assert false by {
        SameSide(k.ts, x.ts, last);
      }
    }
    hide Bucket, Group, Agree, Pending, Aged, Logged;
  }

  lemma LastAligned(v: View, last: nat)
    requires Inv(v) && IsLast(v.rollups, last)
    ensures last % ROLLUP_SECS == 0
  {
    hide Groups, Agree, Pending, Aged, Logged;
    if last != 0 {
      var g :| g in v.rollups && g.ts + ROLLUP_SECS == last;
      AlignedNext(v.log, g);
    }
  }

  lemma AlignedNext(log: map<Key, Sample>, g: Key)
    requires g in Groups(log)
    ensures (g.ts + ROLLUP_SECS) % ROLLUP_SECS == 0
  {
    hide Groups, Bucket;
    GroupAligned(log, g);
  }

  lemma SameSide(a: nat, b: nat, last: nat)
    requires Bucket(a) == Bucket(b) && last % ROLLUP_SECS == 0 && a < last
    ensures b < last
  {
  }

  /** What a caller can see: a sample of the current bucket or later is timely, and within
      the retention of rollups one is timely if and only if it is past the boundary. */
  lemma TimelyGuard(v: View, last: nat, k: Key)
    requires Inv(v) && IsLast(v.rollups, last)
    ensures k.ts >= Bucket(v.clock) ==> Timely(v, k)
    ensures Bucket(k.ts) >= Cutoff(v.clock, ROLLUP_KEEP) ==> (Timely(v, k) <==> last <= k.ts)
  {
    LastIsPast(v.rollups, last, k.ts);
    BucketBounds(k.ts);
    if k.ts >= Bucket(v.clock) {
      CurrentIsTimely(v, k);
    }
    hide Bucket, Agree, Pending, Aged, Logged, IsLast, Cutoff;
  }

  lemma CurrentIsTimely(v: View, k: Key)
    requires Inv(v) && k.ts >= Bucket(v.clock)
    ensures Timely(v, k)
  {
    forall g | g in v.sealed ensures g.ts + ROLLUP_SECS <= Bucket(v.clock) {
      GroupAligned(v.log, g);
      BucketOver(g.ts, v.clock);
      hide Agree, Pending, Aged, Logged, Bucket, Groups;
    }
    BucketBounds(k.ts);
    hide Bucket, Agree, Pending, Aged, Logged, Groups;
  }

  // ---------- peaks ----------

  /** MAX over a set of values where None is NULL. */
  ghost predicate IsMax(values: set<Option<real>>, m: Option<real>) {
    && (forall x :: x in values && x.Some? ==> m.Some? && x.value <= m.value)
    && (m.Some? ==> m in values)
  }

  /** The peaks stored for some buckets. */
  ghost function StoredPeaks(log: map<Key, Sample>, groups: set<Key>, f: Column): set<Option<real>> {
    set g | g in groups :: Peak(Rows(log, g.vm, g.ts, ROLLUP_SECS), f)
  }

  /** The values logged in those buckets. */
  ghost function LoggedValues(log: map<Key, Sample>, groups: set<Key>, f: Column): set<Option<real>> {
    set k | k in log && Group(k) in groups :: f(log[k])
  }

  lemma {:induction false} RowsHave(table: map<Key, Sample>, vm: string, from: nat, n: nat, ts: nat, s: Sample)
    requires IsRow(table, vm, from, n, ts, s)
    ensures s in Rows(table, vm, from, n)
  {
    if ts < from + n - 1 { RowsHave(table, vm, from, n - 1, ts, s); }
  }

  lemma {:induction false} RowsOnly(table: map<Key, Sample>, vm: string, from: nat, n: nat, s: Sample)
    requires s in Rows(table, vm, from, n)
    ensures exists ts :: IsRow(table, vm, from, n, ts, s)
  {
    if s in Rows(table, vm, from, n - 1) {
      RowsOnly(table, vm, from, n - 1, s);
      var ts :| IsRow(table, vm, from, n - 1, ts, s);
      assert IsRow(table, vm, from, n, ts, s);
    } else {
      assert IsRow(table, vm, from, n, from + n - 1, s);
    }
  }

  ghost predicate IsRow(table: map<Key, Sample>, vm: string, from: nat, n: nat, ts: nat, s: Sample) {
    from <= ts < from + n && Key(vm, ts) in table && table[Key(vm, ts)] == s
  }

  /** A bucket's peak is the maximum of what was logged in it. */
  lemma BucketPeak(log: map<Key, Sample>, g: Key, f: Column)
    requires g.ts % ROLLUP_SECS == 0
    ensures IsMax(LoggedValues(log, {g}, f), Peak(Rows(log, g.vm, g.ts, ROLLUP_SECS), f))
  {
    var rows := Rows(log, g.vm, g.ts, ROLLUP_SECS);
    var p := Peak(rows, f);
    PeakMeans(rows, f);
    forall k | k in log && Group(k) == g ensures log[k] in rows {
      BucketWhole(g.ts, k.ts);
      RowsHave(log, g.vm, g.ts, ROLLUP_SECS, k.ts, log[k]);
    }
    if p.Some? {
      var s :| s in rows && f(s) == p;
      RowsOnly(log, g.vm, g.ts, ROLLUP_SECS, s);
      var ts :| IsRow(log, g.vm, g.ts, ROLLUP_SECS, ts, s);
      BucketWhole(g.ts, ts);
      assert Group(Key(g.vm, ts)) == g;
    }
  }

  lemma PeakAbove(rows: seq<Sample>, s: Sample)
    requires s in rows
    ensures Aggregate(rows).cpuMax.Some? && Aggregate(rows).cpuMax.value >= s.cpu
  {
    PeakMeans(rows, Cpu);
    hide Peak, Avg;
  }

  /** Two sets of values have the same maxima when one holds only values of the other, and
      something above each of them. */
  lemma SameMax(a: set<Option<real>>, b: set<Option<real>>, m: Option<real>)
    requires forall x :: x in a && x.Some? ==> x in b
    requires forall y :: y in b && y.Some? ==> exists x :: x in a && x.Some? && y.value <= x.value
    ensures IsMax(a, m) <==> IsMax(b, m)
  {
    if IsMax(b, m) && m.Some? {
      var x :| x in a && x.Some? && m.value <= x.value;
      assert x in b;
    }
  }

  /** The maximum of the stored peaks is the maximum of everything logged in the buckets. */
  lemma PeakOfPeaks(log: map<Key, Sample>, groups: set<Key>, f: Column, m: Option<real>)
    requires forall g :: g in groups ==> g.ts % ROLLUP_SECS == 0
    ensures IsMax(StoredPeaks(log, groups, f), m) <==> IsMax(LoggedValues(log, groups, f), m)
  {
    var stored, values := StoredPeaks(log, groups, f), LoggedValues(log, groups, f);
    forall x | x in stored && x.Some? ensures x in values {
      var g :| g in groups && x == Peak(Rows(log, g.vm, g.ts, ROLLUP_SECS), f);
      BucketPeak(log, g, f);
      hide Rows, Peak, Group;
      var k :| k in log && Group(k) == g && f(log[k]) == x;
    }
    forall y | y in values && y.Some? ensures exists x :: x in stored && x.Some? && y.value <= x.value {
      var k :| k in log && Group(k) in groups && f(log[k]) == y;
      var g := Group(k);
      BucketPeak(log, g, f);
      hide Rows, Peak, Group;
      assert y in LoggedValues(log, {g}, f);
      assert Peak(Rows(log, g.vm, g.ts, ROLLUP_SECS), f) in stored;
    }
    SameMax(stored, values, m);
  }

  /** The larger of a maximum so far and a further value. */
  function Larger(m: Option<real>, x: Option<real>): Option<real> {
    if x.None? then m else if m.None? || m.value < x.value then x else m
  }

  datatype PeakRow = PeakRow(cpu: Option<real>, rx: Option<real>, tx: Option<real>, wr: Option<real>, conns: Option<real>)

  function Raised(p: PeakRow, q: PeakRow): PeakRow {
    PeakRow(Larger(p.cpu, q.cpu), Larger(p.rx, q.rx), Larger(p.tx, q.tx), Larger(p.wr, q.wr), Larger(p.conns, q.conns))
  }

  const NO_PEAKS := PeakRow(None, None, None, None, None)

  /** The rows of one chart point, of either table. */
  function PointKeys<T>(table: map<Key, T>, vm: string, from: nat, width: nat, b: nat): set<Key>
    requires width > 0
  {
    set k | k in table && k.vm == vm && k.ts >= from && k.ts / width * width == b
  }

  /** The points of a chart share the rows of its range out: each row is in the one point
      whose interval holds it. */
  lemma PointsPartition<T>(table: map<Key, T>, vm: string, from: nat, width: nat, b: nat, k: Key)
    requires width > 0 && k in table
    ensures k in PointKeys(table, vm, from, width, b) <==>
      k.vm == vm && k.ts >= from && b % width == 0 && b <= k.ts < b + width
  {
    Aligned(k.ts, width, b);
  }

  lemma Aligned(ts: nat, width: nat, b: nat)
    requires width > 0
    ensures ts / width * width == b <==> b % width == 0 && b <= ts < b + width
  {
    Division(ts, width);
    var q := ts / width;
    Multiple(q, width);
    if b % width == 0 && b <= ts < b + width {
      Division(b, width);
      var p := b / width;
      assert b == p * width;
      assert (q + 1) * width == q * width + width && (p + 1) * width == p * width + width;
      if p < q {
        Product(p + 1, q, width);
      } else if q < p {
        Product(q + 1, p, width);
      }
    }
  }

  lemma Multiple(q: nat, n: nat)
    requires n > 0
    ensures q * n % n == 0
  {
    Quotient(q, n);
    Division(q * n, n);
  }

  /** A row is kept as long as it is no older than its retention. */
  lemma CutoffMeans(now: nat, keep: nat, ts: nat)
    ensures ts >= Cutoff(now, keep) <==> now - ts <= keep
  {
  }

  /** The values of some samples. */
  ghost function Values(samples: map<Key, Sample>, keys: set<Key>, f: Column): set<Option<real>> {
    set k | k in keys && k in samples :: f(samples[k])
  }

  ghost predicate RawPeaks(samples: map<Key, Sample>, keys: set<Key>, p: PeakRow) {
    && IsMax(Values(samples, keys, Cpu), p.cpu) && IsMax(Values(samples, keys, Rx), p.rx)
    && IsMax(Values(samples, keys, Tx), p.tx) && IsMax(Values(samples, keys, Wr), p.wr)
    && IsMax(Values(samples, keys, Conns), p.conns)
  }

  ghost predicate Peaks(log: map<Key, Sample>, groups: set<Key>, p: PeakRow) {
    && IsMax(StoredPeaks(log, groups, Cpu), p.cpu) && IsMax(StoredPeaks(log, groups, Rx), p.rx)
    && IsMax(StoredPeaks(log, groups, Tx), p.tx) && IsMax(StoredPeaks(log, groups, Wr), p.wr)
    && IsMax(StoredPeaks(log, groups, Conns), p.conns)
  }

  lemma ValuesInsert(samples: map<Key, Sample>, keys: set<Key>, k: Key, f: Column, m: Option<real>)
    requires IsMax(Values(samples, keys, f), m) && k in samples
    ensures IsMax(Values(samples, keys + {k}, f), Larger(m, f(samples[k])))
  {
    assert Values(samples, keys + {k}, f) == Values(samples, keys, f) + {f(samples[k])};
    hide Values;
  }

  lemma RawInsert(samples: map<Key, Sample>, keys: set<Key>, k: Key, p: PeakRow)
    requires RawPeaks(samples, keys, p) && k in samples
    ensures var s := samples[k]; RawPeaks(samples, keys + {k}, Raised(p, PeakRow(Cpu(s), Rx(s), Tx(s), Wr(s), Conns(s))))
  {
    ValuesInsert(samples, keys, k, Cpu, p.cpu);
    ValuesInsert(samples, keys, k, Rx, p.rx);
    ValuesInsert(samples, keys, k, Tx, p.tx);
    ValuesInsert(samples, keys, k, Wr, p.wr);
    ValuesInsert(samples, keys, k, Conns, p.conns);
    hide IsMax, Values, Larger;
  }

  lemma StoredInsert(log: map<Key, Sample>, groups: set<Key>, g: Key, f: Column, m: Option<real>)
    requires IsMax(StoredPeaks(log, groups, f), m)
    ensures IsMax(StoredPeaks(log, groups + {g}, f), Larger(m, Peak(Rows(log, g.vm, g.ts, ROLLUP_SECS), f)))
  {
    var p := Peak(Rows(log, g.vm, g.ts, ROLLUP_SECS), f);
    assert StoredPeaks(log, groups + {g}, f) == StoredPeaks(log, groups, f) + {p};
    hide StoredPeaks, Rows, Peak;
  }

  function StoredRow(r: Rollup): PeakRow {
    PeakRow(r.cpuMax, r.rxMax, r.txMax, r.wrMax, r.connsMax)
  }

  lemma PeaksInsert(rollups: map<Key, Rollup>, log: map<Key, Sample>, spoiled: set<Key>, groups: set<Key>, g: Key, p: PeakRow)
    requires Peaks(log, groups, p) && Agree(rollups, log, spoiled) && g in rollups && g !in spoiled
    ensures Peaks(log, groups + {g}, Raised(p, StoredRow(rollups[g])))
  {
    assert rollups[g] == Aggregate(Rows(log, g.vm, g.ts, ROLLUP_SECS));
    StoredInsert(log, groups, g, Cpu, p.cpu);
    StoredInsert(log, groups, g, Rx, p.rx);
    StoredInsert(log, groups, g, Tx, p.tx);
    StoredInsert(log, groups, g, Wr, p.wr);
    StoredInsert(log, groups, g, Conns, p.conns);
    hide IsMax, StoredPeaks, Larger, Rows, Peak, Avg, Agree;
  }

  lemma NoPeaks(table: map<Key, Sample>)
    ensures Peaks(table, {}, NO_PEAKS) && RawPeaks(table, {}, NO_PEAKS)
  {
  }

  /** The peaks are those of everything logged in the buckets. */
  ghost predicate LoggedPeaks(log: map<Key, Sample>, groups: set<Key>, p: PeakRow) {
    && IsMax(LoggedValues(log, groups, Cpu), p.cpu) && IsMax(LoggedValues(log, groups, Rx), p.rx)
    && IsMax(LoggedValues(log, groups, Tx), p.tx) && IsMax(LoggedValues(log, groups, Wr), p.wr)
    && IsMax(LoggedValues(log, groups, Conns), p.conns)
  }

  lemma PeaksLogged(log: map<Key, Sample>, groups: set<Key>, p: PeakRow)
    requires Peaks(log, groups, p) && groups <= Groups(log)
    ensures LoggedPeaks(log, groups, p)
  {
    forall g | g in groups ensures g.ts % ROLLUP_SECS == 0 {
      GroupAligned(log, g);
    }
    PeakOfPeaks(log, groups, Cpu, p.cpu);
    PeakOfPeaks(log, groups, Rx, p.rx);
    PeakOfPeaks(log, groups, Tx, p.tx);
    PeakOfPeaks(log, groups, Wr, p.wr);
    PeakOfPeaks(log, groups, Conns, p.conns);
    hide IsMax, StoredPeaks, LoggedValues;
  }

  lemma PointKnown(v: View, vm: string, from: nat, width: nat, b: nat)
    requires Inv(v) && width > 0
    ensures PointKeys(v.rollups, vm, from, width, b) <= v.rollups.Keys <= Groups(v.log)
    ensures PointKeys(v.samples, vm, from, width, b) <= v.samples.Keys
    ensures Agree(v.rollups, v.log, v.spoiled)
  {
    hide Agree, Pending, Aged, Groups;
  }

  // ---------- the database ----------

  ghost function Appended(log: map<Key, Sample>, batch: seq<(Key, Sample)>, n: nat): map<Key, Sample>
    requires n <= |batch|
  {
    if n == 0 then log else Appended(log, batch, n - 1)[batch[n - 1].0 := batch[n - 1].1]
  }

  /** Recording replaces: of the samples of a key in a batch the last one stays, and keys not
      in it keep what they had. */
  lemma {:induction false} AppendedMeans(log: map<Key, Sample>, batch: seq<(Key, Sample)>, n: nat, k: Key)
    requires n <= |batch|
    ensures match LastOf(batch, n, k)
      case None => SameRow(Appended(log, batch, n), log, k)
      case Some(i) => k in Appended(log, batch, n) && Appended(log, batch, n)[k] == batch[i].1
  {
    if n > 0 {
      AppendedMeans(log, batch, n - 1, k);
    }
  }

  /** The last sample of a key among the first n of a batch. */
  ghost function LastOf(batch: seq<(Key, Sample)>, n: nat, k: Key): (r: Option<nat>)
    requires n <= |batch|
    ensures r.Some? ==> r.value < n && batch[r.value].0 == k && forall j :: r.value < j < n ==> batch[j].0 != k
    ensures r.None? ==> forall j :: 0 <= j < n ==> batch[j].0 != k
  {
    if n == 0 then None else if batch[n - 1].0 == k then Some((n - 1) as nat) else LastOf(batch, n - 1, k)
  }

  const MAX_POINTS: nat := 360

  /** The width of a chart's points: raw samples each minute, rollups beyond their range. */
  function PointWidth(range: nat): (w: nat)
    ensures w >= 60
  {
    Later(range / MAX_POINTS, if range <= RAW_KEEP then 60 else ROLLUP_SECS)
  }

  /** The number of the point a row falls into: its start divided by its width. */
  ghost function Slot(t: nat, width: nat): nat
    requires width > 0
  {
    t / width
  }

  /** The points of a chart whose rows have these times. */
  ghost function Points(stamps: set<nat>, from: nat, width: nat): set<nat>
    requires width > 0
  {
    set t | t in stamps && t >= from :: Slot(t, width)
  }

  ghost function Interval(lo: nat, n: nat): (r: set<nat>)
    ensures |r| == n && forall i :: i in r <==> lo <= i < lo + n
  {
    if n == 0 then {} else Interval(lo, n - 1) + {lo + n - 1}
  }

  /** A range covers at most one point more than it is points wide, rounded up. */
  lemma PointsAtMost(stamps: set<nat>, range: nat, now: nat, width: nat, n: nat)
    requires width > 0 && range <= n * width && forall t :: t in stamps ==> t <= now
    ensures |Points(stamps, Cutoff(now, range), width)| <= n + 1
  {
    hide Slot;
    var from := Cutoff(now, range);
    var lo := Slot(from, width);
    forall t | t in stamps && t >= from ensures lo <= Slot(t, width) <= lo + n {
      SlotNear(from, t, width, n);
    }
    Smaller(Points(stamps, from, width), Interval(lo, n + 1));
  }

  lemma SlotNear(from: nat, t: nat, width: nat, n: nat)
    requires width > 0 && from <= t <= from + n * width
    ensures Slot(from, width) <= Slot(t, width) <= Slot(from, width) + n
  {
    var a, b := from / width, t / width;
    Division(from, width);
    Division(t, width);
    assert (b + 1) * width == b * width + width && (a + n + 1) * width == a * width + n * width + width;
    SlotMost(from, b, width);
    SlotMost(t, a + n, width);
  }

  lemma SlotMost(t: nat, q: nat, width: nat)
    requires width > 0 && t < (q + 1) * width
    ensures Slot(t, width) <= q
  {
    Division(t, width);
    if t / width >= q + 1 {
      Product(q + 1, t / width, width);
    }
  }

  /** A time in the given slot, the last one for the first. */
  ghost function Mark(i: nat, width: nat): nat
    requires width > 0
  {
    if i == 0 then width - 1 else i * width
  }

  lemma MarkSlot(i: nat, width: nat, n: nat)
    requires width > 0 && i <= n + 1
    ensures width - 1 <= Mark(i, width) <= n * width + width && Slot(Mark(i, width), width) == i
  {
    Quotient(i, width);
    Product(i, n + 1, width);
    assert (n + 1) * width == n * width + width;
    if i == 0 {
      Division(width - 1, width);
    } else {
      Product(1, i, width);
    }
  }

  /** A sample in each point of a range a little over `n` points wide. */
  lemma PointsReached(range: nat, width: nat, n: nat) returns (stamps: set<nat>, now: nat)
    requires width > 0 && n * width < range
    ensures (forall t :: t in stamps ==> t <= now) && |Points(stamps, Cutoff(now, range), width)| == n + 2
  {
    hide Mark, Slot;
    now := range + width - 1;
    stamps := set i: nat | 0 <= i < n + 2 :: Mark(i, width);
    forall i: nat | i < n + 2 ensures width - 1 <= Mark(i, width) <= now && Slot(Mark(i, width), width) == i {
      MarkSlot(i, width, n);
    }
    var points := Points(stamps, width - 1, width);
    forall i: nat | i < n + 2 ensures i in points {
      assert Mark(i, width) in stamps;
    }
    assert points == Interval(0, n + 2);
  }

  ghost predicate Capped(range: nat, stamps: set<nat>, now: nat) {
    (forall t :: t in stamps ==> t <= now) ==> |Points(stamps, Cutoff(now, range), PointWidth(range))| <= MAX_POINTS
  }

  /** Charts of raw samples keep to their cap, whenever the samples were taken, if and only if
      the range is at most 359 minutes. */
  lemma CapHoldsIff(range: nat)
    requires 0 < range <= RAW_KEEP
    ensures (forall stamps, now :: Capped(range, stamps, now)) <==> range <= 359 * 60
  {
    hide Points, Cutoff;
    var w := PointWidth(range);
    if range <= 359 * 60 {
      forall stamps, now ensures Capped(range, stamps, now) {
        if forall t :: t in stamps ==> t <= now {
          PointsAtMost(stamps, range, now, w, 359);
        }
      }
    } else {
      var stamps, now := PointsReached(range, w, 359);
      assert !Capped(range, stamps, now);
    }
  }

  /** No chart has more than 367 points. */
  lemma PointsBounded(range: nat, stamps: set<nat>, now: nat)
    requires 0 < range && forall t :: t in stamps ==> t <= now
    ensures |Points(stamps, Cutoff(now, range), PointWidth(range))| <= 367
    ensures range > 2 * 86400 ==> PointWidth(range) >= 600
    ensures PointWidth(range) > 600 ==> PointWidth(range) * 360 <= range
    ensures range <= 2 * 86400 && PointWidth(range) > 60 ==> PointWidth(range) * 360 <= range
  {
    var w := PointWidth(range);
    assert range <= 366 * w;
    PointsAtMost(stamps, range, now, w, 366);
  }

  class Store {
    var samples: map<Key, Sample>
    var rollups: map<Key, Rollup>
    ghost var log: map<Key, Sample>
    ghost var sealed: set<Key>
    ghost var spoiled: set<Key>
    ghost var clock: nat

    ghost function Now(): View
      reads this
    {
      View(samples, rollups, log, sealed, spoiled, clock)
    }

    constructor ()
      ensures Now() == View(map[], map[], map[], {}, {}, 0) && Inv(Now())
    {
      samples, rollups, log, sealed, spoiled, clock := map[], map[], map[], {}, {}, 0;
    }

    /** One transaction: all of the batch is recorded, or none. Only buckets it comes too
        late for are spoiled. */
    method Record(batch: seq<(Key, Sample)>) returns (ok: bool)
      requires Inv(Now())
      modifies this
      ensures Inv(Now()) && rollups == old(rollups) && sealed == old(sealed) && clock == old(clock)
      ensures !ok ==> Now() == old(Now())
      ensures ok ==> samples == Appended(old(samples), batch, |batch|) && log == Appended(old(log), batch, |batch|)
      ensures ok ==> spoiled == old(spoiled) + LateGroups(old(Now()), batch)
    {
      hide Inv, Timely, LateGroups;
      var table := samples;
      ghost var late := LateGroups(Now(), batch);
      ghost var v := Now().(spoiled := spoiled + late);
      SpoiledMore(Now(), late);
      for i := 0 to |batch|
        invariant table == Appended(samples, batch, i)
        invariant v == View(table, rollups, Appended(log, batch, i), sealed, spoiled + late, clock) && Inv(v)
        modifies {}
      {
        var k, s := batch[i].0, batch[i].1;
        LateOrTimely(Now(), batch, v, i);
        Recorded(v, k, s);
        table := table[k := s];
        v := With(v, k, s);
      }
      ok := *;
      if ok {
        samples := table;
        log := Appended(log, batch, |batch|);
        spoiled := spoiled + late;
      }
    }

    /** COALESCE(MAX(ts) + width, 0) over the rollups of all instances. */
    method Boundary() returns (last: nat)
      ensures IsLast(rollups, last)
    {
      last := 0;
      var todo := rollups.Keys;
      while todo != {}
        invariant todo <= rollups.Keys && (last == 0 || exists g :: g in rollups && g.ts + ROLLUP_SECS == last)
        invariant forall g :: g in rollups && g !in todo ==> g.ts + ROLLUP_SECS <= last
        decreases |todo|
      {
        var g :| g in todo;
        if g.ts + ROLLUP_SECS > last {
          last := g.ts + ROLLUP_SECS;
        }
        todo := todo - {g};
      }
    }

    /** Three statements, each committed on its own; a failure skips the rest. */
    method Maintain(now: nat) returns (ok: bool)
      requires Inv(Now())
      modifies this
      ensures Inv(Now()) && log == old(log) && spoiled == old(spoiled) && clock <= Later(old(clock), now)
      ensures forall k :: k in old(samples) && k !in samples ==> Group(k) in sealed + spoiled
      ensures ok ==> CaughtUp(log, sealed + spoiled, now) && clock == Later(old(clock), now)
      ensures ok && now >= old(clock) ==> Maintained(Now(), now)
      ensures ok ==> Idle(samples, rollups, now)
      ensures Idle(old(samples), old(rollups), now) ==> samples == old(samples) && rollups == old(rollups)
    {
      hide Inv, IsLast, CaughtUp, Recomputed, Fold, Cutoff, Newer, Idle, Sound, Group;
      ghost var v := Now();
      var last := Boundary();
      if Idle(samples, rollups, now) {
        NothingToDo(samples, rollups, last, now);
        assert rollups + map[] == rollups;
      }
      MaintenanceIsIdle(samples, rollups, last, now);
      ok := *;
      if !ok { return; }
      FoldedInv(v, last, now);
      rollups := rollups + Fold(samples, last, Bucket(now));
      sealed := sealed + Fold(v.samples, last, Bucket(now)).Keys;
      clock := Later(clock, now);
      assert Now() == Folded(v, last, now);
      ok := *;
      if !ok { return; }
      TrimmedInv(Now(), now);
      NewerCut(samples, Cutoff(now, RAW_KEEP));
      samples := Newer(samples, Cutoff(now, RAW_KEEP));
      ok := *;
      if !ok { return; }
      ExpiredInv(Now(), now);
      NewerCut(rollups, Cutoff(now, ROLLUP_KEEP));
      rollups := Newer(rollups, Cutoff(now, ROLLUP_KEEP));
      if now >= v.clock {
        SamplesDetermined(Now());
        RollupsDetermined(Now());
      }
    }

    /** Two statements; a failure of the second spoils the instance's buckets. */
    method Forget(vm: string) returns (ok: bool)
      requires Inv(Now())
      modifies this
      ensures Inv(Now())
      ensures ok ==> Now() == Forgotten(old(Now()), vm)
      ensures !ok ==> Now() == old(Now()) || Now() == HalfForgotten(old(Now()), vm)
    {
      hide Inv;
      ghost var v := Now();
      ok := *;
      if !ok { return; }
      HalfForgottenInv(v, vm);
      samples := Others(samples, vm);
      spoiled := spoiled + GroupsOf(log, vm);
      ok := *;
      if !ok { return; }
      ForgottenInv(v, vm);
      rollups := Others(rollups, vm);
      log, sealed, spoiled := Others(log, vm), OtherKeys(sealed, vm), OtherKeys(v.spoiled, vm);
    }

    /** The peaks of a chart point: from the raw samples while they cover the range, from the
        rollups beyond, where they are the maxima of all that was logged in their buckets. */
    method ChartPeaks(vm: string, range: nat, now: nat, b: nat) returns (r: Option<PeakRow>)
      requires Inv(Now())
      ensures r.None? <==> range == 0 || range > ROLLUP_KEEP
      ensures r.Some? && range <= RAW_KEEP ==>
        RawPeaks(samples, PointKeys(samples, vm, Cutoff(now, range), PointWidth(range), b), r.value)
      ensures r.Some? && range > RAW_KEEP ==>
        var groups := PointKeys(rollups, vm, Cutoff(now, range), PointWidth(range), b);
        (groups !! spoiled ==> LoggedPeaks(log, groups, r.value))
    {
      if range == 0 || range > ROLLUP_KEEP {
        return None;
      }
      hide PointWidth, PointKeys, Cutoff, Inv, LoggedPeaks, RawPeaks;
      var p;
      if range <= RAW_KEEP {
        p := SamplePeaks(vm, Cutoff(now, range), PointWidth(range), b);
      } else {
        p := RollupPeaks(vm, Cutoff(now, range), PointWidth(range), b);
      }
      return Some(p);
    }

    method SamplePeaks(vm: string, from: nat, width: nat, b: nat) returns (p: PeakRow)
      requires Inv(Now()) && width > 0
      ensures RawPeaks(samples, PointKeys(samples, vm, from, width, b), p)
    {
      hide RawPeaks, PointKeys, Inv, Larger, Agree, Groups;
      p := NO_PEAKS;
      var todo := PointKeys(samples, vm, from, width, b);
      ghost var keys := todo;
      PointKnown(Now(), vm, from, width, b);
      NoPeaks(samples);
      assert keys - todo == {};
      while todo != {}
        invariant todo <= keys && RawPeaks(samples, keys - todo, p)
        decreases |todo|
      {
        var k :| k in todo;
        RawInsert(samples, keys - todo, k, p);
        var s := samples[k];
        p := Raised(p, PeakRow(Cpu(s), Rx(s), Tx(s), Wr(s), Conns(s)));
        assert keys - todo + {k} == keys - (todo - {k});
        todo := todo - {k};
      }
      assert keys - todo == keys;
    }

    method RollupPeaks(vm: string, from: nat, width: nat, b: nat) returns (p: PeakRow)
      requires Inv(Now()) && width > 0
      ensures PointKeys(rollups, vm, from, width, b) !! spoiled ==> LoggedPeaks(log, PointKeys(rollups, vm, from, width, b), p)
    {
      hide Peaks, PointKeys, LoggedPeaks, Inv, Groups, Agree, Larger;
      p := NO_PEAKS;
      var todo := PointKeys(rollups, vm, from, width, b);
      ghost var groups := todo;
      PointKnown(Now(), vm, from, width, b);
      NoPeaks(log);
      assert groups - todo == {};
      while todo != {}
        invariant todo <= groups && (groups !! spoiled ==> Peaks(log, groups - todo, p))
        decreases |todo|
      {
        var g :| g in todo;
        if groups !! spoiled {
          PeaksInsert(rollups, log, spoiled, groups - todo, g, p);
        }
        p := Raised(p, StoredRow(rollups[g]));
        assert groups - todo + {g} == groups - (todo - {g});
        todo := todo - {g};
      }
      assert groups - todo == groups;
      if groups !! spoiled {
        PeaksLogged(log, groups, p);
      }
    }
  }

  // ---------- whole runs ----------

  datatype Op = RecordOp(batch: seq<(Key, Sample)>) | MaintainOp(now: nat) | ForgetOp(vm: string)

  /** The latest time of maintenance among the first n operations. */
  ghost function Latest(ops: seq<Op>, n: nat): nat
    requires n <= |ops|
  {
    if n == 0 then 0
    else if ops[n - 1].MaintainOp? then Later(Latest(ops, n - 1), ops[n - 1].now)
    else Latest(ops, n - 1)
  }

  /** The batch has a sample of bucket g from before the bucket current at `now`. */
  ghost predicate HasLate(batch: seq<(Key, Sample)>, g: Key, now: nat) {
    exists j :: 0 <= j < |batch| && Group(batch[j].0) == g && batch[j].0.ts < Bucket(now)
  }

  /** Operation i can have spoiled bucket g: it recorded a sample of g from before the bucket
      current at the latest maintenance, or reported that it could not forget its instance. */
  ghost predicate Spoils(ops: seq<Op>, outcomes: seq<bool>, i: nat, g: Key)
    requires i < |ops| && i < |outcomes|
  {
    match ops[i]
    case RecordOp(batch) => HasLate(batch, g, Latest(ops, i))
    case MaintainOp(_) => false
    case ForgetOp(vm) => g.vm == vm && !outcomes[i]
  }

  ghost predicate Blamed(ops: seq<Op>, outcomes: seq<bool>, g: Key)
    requires |outcomes| <= |ops|
  {
    exists i :: 0 <= i < |outcomes| && Spoils(ops, outcomes, i, g)
  }

  lemma BucketMonotone(a: nat, b: nat)
    requires a <= b
    ensures Bucket(a) <= Bucket(b)
  {
  }

  /** A bucket spoiled by a batch has a sample in it from before the current bucket. */
  lemma LateIsOld(v: View, batch: seq<(Key, Sample)>, now: nat, g: Key)
    requires Inv(v) && v.clock <= now && g in LateGroups(v, batch)
    ensures HasLate(batch, g, now)
  {
    var j :| 0 <= j < |batch| && !Timely(v, batch[j].0) && Group(batch[j].0) == g;
    if batch[j].0.ts >= Bucket(v.clock) {
      CurrentIsTimely(v, batch[j].0);
    }
    BucketMonotone(v.clock, now);
    hide Inv, Group, Bucket, Timely;
  }

  /** Blame carries over to the next operation, which answers for what it spoils. */
  lemma BlamedNext(ops: seq<Op>, outcomes: seq<bool>, ok: bool, spoiled: set<Key>, spoiled': set<Key>)
    requires |outcomes| < |ops| && forall g :: g in spoiled ==> Blamed(ops, outcomes, g)
    requires forall g :: g in spoiled' ==> g in spoiled || Spoils(ops, outcomes + [ok], |outcomes|, g)
    ensures forall g :: g in spoiled' ==> Blamed(ops, outcomes + [ok], g)
  {
    forall g | g in spoiled' ensures Blamed(ops, outcomes + [ok], g) {
      if g in spoiled {
        var i :| 0 <= i < |outcomes| && Spoils(ops, outcomes, i, g);
        assert (outcomes + [ok])[i] == outcomes[i];
        assert Spoils(ops, outcomes + [ok], i, g);
      }
    }
  }

  /** At the end of every run, with samples of any time, maintenance at any time and any
      statement failing, each rollup is the aggregate of everything logged in its bucket,
      except in buckets that a sample came too late for or whose instance could not be
      forgotten; without these, in all. */
  method Run(ops: seq<Op>) returns (st: Store, outcomes: seq<bool>)
    ensures fresh(st) && Inv(st.Now()) && Agree(st.rollups, st.log, st.spoiled) && |outcomes| == |ops|
    ensures forall g :: g in st.spoiled ==> Blamed(ops, outcomes, g)
    ensures (forall g :: !Blamed(ops, outcomes, g)) ==> st.spoiled == {} && Agree(st.rollups, st.log, {})
  {
    hide Inv, Agree, Maintained, Idle, CaughtUp, LateGroups, Blamed, Later, HasLate;
    st := new Store();
    outcomes := [];
    for i := 0 to |ops|
      invariant fresh(st) && Inv(st.Now()) && st.clock <= Latest(ops, i)
      invariant |outcomes| == i && forall g :: g in st.spoiled ==> Blamed(ops, outcomes, g)
    {
      ghost var v := st.Now();
      var ok: bool;
      match ops[i] {
        case RecordOp(batch) =>
          ok := st.Record(batch);
          forall g | g in LateGroups(v, batch) ensures HasLate(batch, g, Latest(ops, i)) {
            LateIsOld(v, batch, Latest(ops, i), g);
          }
        case MaintainOp(now) =>
          ok := st.Maintain(now);
          LaterMonotone(v.clock, Latest(ops, i), now);
        case ForgetOp(vm) =>
          ok := st.Forget(vm);
          SpoiledByForgetting(v, vm);
      }
      BlamedNext(ops, outcomes, ok, v.spoiled, st.spoiled);
      outcomes := outcomes + [ok];
    }
    InvAgrees(st.Now());
    assert st.spoiled == {} || exists g :: g in st.spoiled;
  }

  lemma LaterMonotone(a: nat, b: nat, c: nat)
    requires a <= b
    ensures Later(a, c) <= Later(b, c)
  {
  }

  lemma SpoiledByForgetting(v: View, vm: string)
    ensures Forgotten(v, vm).spoiled <= v.spoiled
    ensures forall g :: g in HalfForgotten(v, vm).spoiled ==> g in v.spoiled || g.vm == vm
  {
  }

  lemma InvAgrees(v: View)
    requires Inv(v)
    ensures Agree(v.rollups, v.log, v.spoiled)
  {
    hide Agree;
  }

  /** The rollup of a single sample peaks at that sample. */
  lemma SinglePeak(vm: string, s: Sample)
    ensures Aggregate(Rows(map[Key(vm, 0) := s], vm, 0, ROLLUP_SECS)).cpuMax == Some(s.cpu)
  {
    var rows := Rows(map[Key(vm, 0) := s], vm, 0, ROLLUP_SECS);
    RowsHave(map[Key(vm, 0) := s], vm, 0, ROLLUP_SECS, 0, s);
    PeakMeans(rows, Cpu);
    var x :| x in rows && Cpu(x) == Peak(rows, Cpu);
    RowsOnly(map[Key(vm, 0) := s], vm, 0, ROLLUP_SECS, x);
    hide Rows, Peak, Avg;
  }

  lemma SingleRollup(v: View, vm: string, s: Sample)
    requires v.log == map[Key(vm, 0) := s] && v.spoiled == {} && Maintained(v, ROLLUP_SECS)
    ensures Key(vm, 0) in v.rollups && v.rollups[Key(vm, 0)].cpuMax == Some(s.cpu)
  {
    MaintainedAll(v, ROLLUP_SECS);
    SinglePeak(vm, s);
    assert Group(Key(vm, 0)) == Key(vm, 0) && Key(vm, 0) in v.log;
    assert Key(vm, 0) in Groups(v.log);
    hide Groups, Rows, Aggregate, Maintained;
  }

  lemma FirstIsTimely(batch: seq<(Key, Sample)>)
    ensures LateGroups(View(map[], map[], map[], {}, {}, 0), batch) == {}
  {
  }

  lemma SecondIsLate(v: View, vm: string, batch: seq<(Key, Sample)>)
    requires Key(vm, 0) in v.rollups && |batch| == 1 && batch[0].0 == Key(vm, 1)
    ensures LateGroups(v, batch) == {Key(vm, 0)}
  {
    assert Group(Key(vm, 1)) == Key(vm, 0);
    assert !Timely(v, batch[0].0);
    hide Group, Timely;
  }

  /** A run in which a rollup comes to disagree: a sample, its maintenance, a late sample. */
  method LateRun(vm: string, s: Sample, t: Sample) returns (st: Store, ok: bool)
    requires t.cpu > s.cpu
    ensures ok ==> Key(vm, 0) in st.rollups && !Agree(st.rollups, st.log, {}) && st.spoiled == {Key(vm, 0)}
  {
    hide Inv, Agree, Maintained, Idle, CaughtUp, LateGroups, Group;
    st := new Store();
    var first, second := [(Key(vm, 0), s)], [(Key(vm, 1), t)];
    FirstIsTimely(first);
    ok := st.Record(first);
    if !ok { return; }
    assert Appended(map[], first, 1) == map[Key(vm, 0) := s];
    ok := st.Maintain(ROLLUP_SECS);
    if !ok { return; }
    SingleRollup(st.Now(), vm, s);
    SecondIsLate(st.Now(), vm, second);
    ghost var log := st.log;
    assert Group(Key(vm, 1)) == Key(vm, 0) by { LateKey(vm); }
    LateDisagrees(st.rollups, log, {}, Key(vm, 1), t);
    ok := st.Record(second);
    assert ok ==> st.log == Appended(log, second, 1) == log[Key(vm, 1) := t];
  }

  lemma LateKey(vm: string)
    ensures Group(Key(vm, 1)) == Key(vm, 0)
  {
  }
}
