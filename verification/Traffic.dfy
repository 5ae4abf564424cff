/** Per-instance byte accounting from counters that restart whenever the interface is
    created anew, with month counters that restart with the billing period. */
module Traffic {

  /** One counter sample of the host side of the interface. */
  datatype Sample = Sample(ifindex: nat, rx: nat, tx: nat, period: string)

  datatype Counters = Counters(
    totalIn: nat, totalOut: nat, monthIn: nat, monthOut: nat, period: string,
    lastIfindex: nat, lastRx: nat, lastTx: nat)

  const ZERO := Counters(0, 0, 0, 0, "", 0, 0, 0)

  function Delta(restarted: bool, cur: nat, last: nat): nat {
    if restarted || cur < last then cur else cur - last
  }

  function Folded(c: Counters, s: Sample): Counters {
    var restarted := s.ifindex != c.lastIfindex;
    var dOut := Delta(restarted, s.rx, c.lastRx);
    var dIn := Delta(restarted, s.tx, c.lastTx);
    var keep := c.period == s.period;
    Counters(c.totalIn + dIn, c.totalOut + dOut,
             (if keep then c.monthIn else 0) + dIn, (if keep then c.monthOut else 0) + dOut,
             s.period, s.ifindex, s.rx, s.tx)
  }

  class Accumulator {
    var totalIn: nat
    var totalOut: nat
    var monthIn: nat
    var monthOut: nat
    var period: string
    var lastIfindex: nat
    var lastRx: nat
    var lastTx: nat

    constructor ()
      ensures View() == ZERO
    {
      totalIn, totalOut, monthIn, monthOut, period := 0, 0, 0, 0, "";
      lastIfindex, lastRx, lastTx := 0, 0, 0;
    }

    function View(): Counters
      reads this
    {
      Counters(totalIn, totalOut, monthIn, monthOut, period, lastIfindex, lastRx, lastTx)
    }

    method Update(ifindex: nat, rx: nat, tx: nat, p: string)
      modifies this
      ensures View() == Folded(old(View()), Sample(ifindex, rx, tx, p))
    {
      if period != p {
        period := p;
        monthIn := 0;
        monthOut := 0;
      }
      var restarted := ifindex != lastIfindex;
      var dOut := if restarted || rx < lastRx then rx else rx - lastRx;
      var dIn := if restarted || tx < lastTx then tx else tx - lastTx;
      totalOut := totalOut + dOut;
      totalIn := totalIn + dIn;
      monthOut := monthOut + dOut;
      monthIn := monthIn + dIn;
      lastIfindex := ifindex;
      lastRx := rx;
      lastTx := tx;
    }

    /** Month counters (in, out) as seen in period `p`. */
    function Month(p: string): (nat, nat)
      reads this
    {
      if period == p then (monthIn, monthOut) else (0, 0)
    }
  }

  /** The counters after the first `n` samples of a history. */
  function After(samples: seq<Sample>, n: nat): Counters
    requires n <= |samples|
  {
    if n == 0 then ZERO else Folded(After(samples, n - 1), samples[n - 1])
  }

  /** A whole history fed through one accumulator. */
  method Replay(samples: seq<Sample>) returns (t: Accumulator)
    ensures fresh(t)
    ensures t.View() == After(samples, |samples|)
  {
    t := new Accumulator();
    for i := 0 to |samples|
      invariant fresh(t)
      invariant t.View() == After(samples, i)
    {
      t.Update(samples[i].ifindex, samples[i].rx, samples[i].tx, samples[i].period);
    }
  }

  // ---------- totals: last readings of the maximal runs ----------

  /** One direction of a sample. */
  datatype Reading = Reading(ifindex: nat, count: nat)

  function Received(samples: seq<Sample>): seq<Reading> {
    seq(|samples|, i requires 0 <= i < |samples| => Reading(samples[i].ifindex, samples[i].rx))
  }

  function Transmitted(samples: seq<Sample>): seq<Reading> {
    seq(|samples|, i requires 0 <= i < |samples| => Reading(samples[i].ifindex, samples[i].tx))
  }

  /** The counter restarted between two consecutive readings. */
  predicate Restarted(a: Reading, b: Reading) {
    a.ifindex != b.ifindex || b.count < a.count
  }

  /** Sum of the last readings of the maximal runs without a restart. */
  function RunTops(r: seq<Reading>): nat {
    if r == [] then 0
    else (if |r| == 1 || Restarted(r[0], r[1]) then r[0].count else 0) + RunTops(r[1..])
  }

  lemma {:induction false} RunTopsAppend(r: seq<Reading>, x: Reading)
    ensures RunTops(r + [x])
         == if r == [] then x.count
            else RunTops(r) + Delta(r[|r| - 1].ifindex != x.ifindex, x.count, r[|r| - 1].count)
  {
    if r == [] {
      assert ([] + [x])[1..] == [];
    } else {
      assert (r + [x])[1..] == r[1..] + [x];
      RunTopsAppend(r[1..], x);
    }
  }

  lemma RunTopsPrefix(r: seq<Reading>, n: nat)
    requires 0 < n <= |r|
    ensures RunTops(r[..n])
         == if n == 1 then r[0].count
            else RunTops(r[..n - 1]) + Delta(r[n - 2].ifindex != r[n - 1].ifindex, r[n - 1].count, r[n - 2].count)
  {
    assert r[..n] == r[..n - 1] + [r[n - 1]];
    RunTopsAppend(r[..n - 1], r[n - 1]);
  }

  lemma LastSeen(samples: seq<Sample>, n: nat)
    requires 0 < n <= |samples|
    ensures var c, s := After(samples, n), samples[n - 1];
            c.lastIfindex == s.ifindex && c.lastRx == s.rx && c.lastTx == s.tx && c.period == s.period
  {
  }

  /** Each total is the sum of the last counter values of the maximal runs on one
      interface without a decrease: no byte is lost or counted twice. */
  lemma {:induction false} TotalsAreRunTops(samples: seq<Sample>, n: nat)
    requires n <= |samples|
    ensures After(samples, n).totalOut == RunTops(Received(samples)[..n])
    ensures After(samples, n).totalIn == RunTops(Transmitted(samples)[..n])
  {
    if n > 0 {
      TotalsAreRunTops(samples, n - 1);
      RunTopsPrefix(Received(samples), n);
      RunTopsPrefix(Transmitted(samples), n);
      if n > 1 {
        LastSeen(samples, n - 1);
      }
    }
  }

  // ---------- months: totals split over the periods ----------

  datatype Usage = Usage(in_: nat, out: nat)

  function Plus(a: Usage, b: Usage): Usage {
    Usage(a.in_ + b.in_, a.out + b.out)
  }

  /** Month counters as they stood whenever a period was closed, in order. */
  function ClosedMonths(samples: seq<Sample>, n: nat): seq<Usage>
    requires n <= |samples|
  {
    if n == 0 then []
    else
      var before := After(samples, n - 1);
      ClosedMonths(samples, n - 1)
      + if before.period != samples[n - 1].period then [Usage(before.monthIn, before.monthOut)] else []
  }

  function Sum(u: seq<Usage>): Usage {
    if u == [] then Usage(0, 0) else Plus(Sum(u[..|u| - 1]), u[|u| - 1])
  }

  lemma SumAppend(u: seq<Usage>, x: Usage)
    ensures Sum(u + [x]) == Plus(Sum(u), x)
  {
    assert (u + [x])[..|u|] == u;
  }

  /** Folding a sample in adds the same bytes to the totals and to the month. */
  lemma SampleGain(c: Counters, s: Sample)
    ensures var r := Folded(c, s);
            && r.totalIn - c.totalIn == r.monthIn - (if c.period == s.period then c.monthIn else 0)
            && r.totalOut - c.totalOut == r.monthOut - (if c.period == s.period then c.monthOut else 0)
  {
  }

  /** Every total is the closed month counters plus the current one. */
  lemma {:induction false} MonthsConserve(samples: seq<Sample>, n: nat)
    requires n <= |samples|
    ensures Usage(After(samples, n).totalIn, After(samples, n).totalOut)
         == Plus(Sum(ClosedMonths(samples, n)), Usage(After(samples, n).monthIn, After(samples, n).monthOut))
  {
    hide Folded, Sum;
    if n == 0 {
      assert Sum([]) == Usage(0, 0) by { SumEmpty(); }
    } else {
      var before, closed := After(samples, n - 1), ClosedMonths(samples, n - 1);
      MonthsConserve(samples, n - 1);
      SampleGain(before, samples[n - 1]);
      SumAppend(closed, Usage(before.monthIn, before.monthOut));
      assert closed + [] == closed;
    }
  }

  lemma SumEmpty()
    ensures Sum([]) == Usage(0, 0)
  {
  }

  /** The month counters are what the totals gained since the period began, that is since
      the last sample of another period. */
  lemma {:induction false} MonthIsGain(samples: seq<Sample>, k: nat, n: nat)
    requires k < n <= |samples|
    requires k > 0 ==> samples[k - 1].period != samples[k].period
    requires forall i :: k <= i < n ==> samples[i].period == samples[k].period
    ensures After(samples, n).monthIn == After(samples, n).totalIn - After(samples, k).totalIn
    ensures After(samples, n).monthOut == After(samples, n).totalOut - After(samples, k).totalOut
    decreases n
  {
    hide Folded;
    SampleGain(After(samples, n - 1), samples[n - 1]);
    if n - 1 > k {
      MonthIsGain(samples, k, n - 1);
    }
    if n > 1 {
      LastSeen(samples, n - 1);
    }
  }

  /** The last stretch of samples of one period begins at k. */
  ghost predicate PeriodBegins(samples: seq<Sample>, k: nat) {
    && k < |samples| && (k > 0 ==> samples[k - 1].period != samples[k].period)
    && forall i :: k <= i < |samples| ==> samples[i].period == samples[k].period
  }

  lemma {:induction false} CurrentPeriod(samples: seq<Sample>, n: nat)
    requires 0 < n <= |samples|
    ensures After(samples, n).period == samples[n - 1].period
  {
  }

  /** The month counters a reader gets: what came in and went out since the period began, and
      nothing of any other period. */
  method MonthAfter(samples: seq<Sample>, p: string) returns (received: nat, sent: nat)
    ensures samples == [] || samples[|samples| - 1].period != p ==> received == sent == 0
    ensures forall k: nat :: PeriodBegins(samples, k) && samples[k].period == p ==>
      && received == After(samples, |samples|).totalIn - After(samples, k).totalIn
      && sent == After(samples, |samples|).totalOut - After(samples, k).totalOut
  {
    var t := Replay(samples);
    var month := t.Month(p);
    received, sent := month.0, month.1;
    if samples != [] {
      CurrentPeriod(samples, |samples|);
    }
    forall k: nat | PeriodBegins(samples, k) && samples[k].period == p
      ensures received == After(samples, |samples|).totalIn - After(samples, k).totalIn
      ensures sent == After(samples, |samples|).totalOut - After(samples, k).totalOut
    {
      MonthIsGain(samples, k, |samples|);
    }
  }
}
