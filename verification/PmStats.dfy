/** The one-second power statistics: a sample ring and the averages over its newest part. */
module PmStats {
  import opened StreamBuffers

  /** One second: busy percentages per core, residency percentages per power mode. */
  datatype Sample = Sample(core0: byte, core1: byte, sleep: byte, apbMax: byte, cpuMax: byte)

  const NO_SAMPLE: Sample := Sample(0, 0, 0, 0, 0)

  datatype Sums = Sums(cpu: nat, apb: nat, amin: nat, slp: nat)

  datatype Avg = Avg(cpuMax: byte, apbMax: byte, apbMin: byte, sleep: byte, mA10: nat)

  const WINDOWS: seq<nat> := [30, 60, 120, 180, 240, 300]

  // ---- Averages of a run of samples ----

  /** What the named modes leave over counts as the lowest bus speed. */
  function ApbMin(e: Sample): nat {
    var rest := 100 - e.sleep as int - e.apbMax as int - e.cpuMax as int;
    if rest < 0 then 0 else rest
  }

  function Add(t: Sums, e: Sample): Sums {
    Sums(t.cpu + e.cpuMax, t.apb + e.apbMax, t.amin + ApbMin(e), t.slp + e.sleep)
  }

  function Total(samples: seq<Sample>): Sums
    decreases |samples|
  {
    if samples == [] then Sums(0, 0, 0, 0)
    else Add(Total(samples[..|samples| - 1]), samples[|samples| - 1])
  }

  function Rounded(sum: nat, n: nat): nat
    requires n > 0
  {
    (sum + n / 2) / n
  }

  function Byte(x: nat): byte { x % 256 }

  const MA_CPU_MAX := 40
  const MA_APB_MAX := 30
  const MA_APB_MIN := 25
  const MA_SLEEP := 2

  /** avgFromSums. */
  function Average(t: Sums, n: nat): Avg {
    if n == 0 then Avg(0, 0, 0, 0, 0)
    else
      var cpu, apb, amin, slp := Rounded(t.cpu, n), Rounded(t.apb, n), Rounded(t.amin, n), Rounded(t.slp, n);
      Avg(Byte(cpu), Byte(apb), Byte(amin), Byte(slp),
          (cpu * MA_CPU_MAX + apb * MA_APB_MAX + amin * MA_APB_MIN + slp * MA_SLEEP + 5) / 10)
  }

  function AverageOf(samples: seq<Sample>): Avg { Average(Total(samples), |samples|) }

  function Last(samples: seq<Sample>, n: nat): seq<Sample>
    requires n <= |samples|
  {
    samples[|samples| - n..]
  }

  /** Adding one more at the old end adds it to the sums. */
  lemma {:induction false} TotalFront(e: Sample, samples: seq<Sample>)
    ensures Total([e] + samples) == Add(Total(samples), e)
    decreases |samples|
  {
    if samples == [] {
      assert [e] + samples == [e] && [e][..0] == [];
    } else {
      var last := |samples| - 1;
      TotalFront(e, samples[..last]);
      assert ([e] + samples)[..last + 1] == [e] + samples[..last];
    }
  }

  lemma TotalOneMore(samples: seq<Sample>, k: nat)
    requires k < |samples|
    ensures Total(Last(samples, k + 1)) == Add(Total(Last(samples, k)), samples[|samples| - 1 - k])
  {
    TotalFront(samples[|samples| - 1 - k], Last(samples, k));
    assert Last(samples, k + 1) == [samples[|samples| - 1 - k]] + Last(samples, k);
  }

  // ---- The four residencies add up ----

  predicate Sound(e: Sample) { e.sleep as int + e.apbMax as int + e.cpuMax as int <= 100 }

  lemma {:induction false} TotalsAddUp(samples: seq<Sample>)
    requires forall i :: 0 <= i < |samples| ==> Sound(samples[i])
    ensures var t := Total(samples); t.cpu + t.apb + t.amin + t.slp == 100 * |samples|
    decreases |samples|
  {
    if samples == [] {
    } else {
      var last := |samples| - 1;
      TotalsAddUp(samples[..last]);
      assert Sound(samples[last]);
    }
  }

  lemma RoundedBounds(sum: nat, n: nat)
    requires n > 0
    ensures Near(n, sum, Rounded(sum, n))
  {
    var y := sum + n / 2;
    assert y == n * (y / n) + y % n;
  }

  /** q is sum / n rounded. */
  ghost predicate Near(n: nat, sum: nat, q: nat) {
    2 * (n * q) <= 2 * sum + n <= 2 * (n * q) + 2 * n - 1
  }

  lemma FourNear(n: nat, a: nat, b: nat, c: nat, d: nat, p: nat, q: nat, r: nat, s: nat)
    requires n > 0 && a + b + c + d == 100 * n && Near(n, a, p) && Near(n, b, q) && Near(n, c, r) && Near(n, d, s)
    ensures 98 * n < n * (p + q + r + s) <= 102 * n
  {
    Distribute(n, p, q, r, s);
  }

  lemma Distribute(n: nat, p: nat, q: nat, r: nat, s: nat)
    ensures n * (p + q + r + s) == n * p + n * q + n * r + n * s
  {
  }

  lemma Cancel(n: nat, a: nat, b: nat)
    requires n > 0 && n * a <= n * b
    ensures a <= b
  {
    if a > b { Above(n, a, b); }
  }

  lemma Above(n: nat, a: nat, b: nat)
    requires n > 0 && a > b
    ensures n * a > n * b
  {
    assert n * a == n * b + n * (a - b);
  }

  lemma FourRounded(a: nat, b: nat, c: nat, d: nat, n: nat)
    requires n > 0 && a + b + c + d == 100 * n
    ensures 99 <= Rounded(a, n) + Rounded(b, n) + Rounded(c, n) + Rounded(d, n) <= 102
  {
    var p, q, r, s := Rounded(a, n), Rounded(b, n), Rounded(c, n), Rounded(d, n);
    RoundedBounds(a, n);
    RoundedBounds(b, n);
    RoundedBounds(c, n);
    RoundedBounds(d, n);
    FourNear(n, a, b, c, d, p, q, r, s);
    Between(n, p + q + r + s);
  }

  lemma Between(n: nat, q: nat)
    requires n > 0 && 98 * n < n * q <= 102 * n
    ensures 99 <= q <= 102
  {
    Cancel(n, q, 102);
    if q < 98 { Above(n, 98, q); }
  }

  lemma ByteFits(x: nat)
    requires x < 256
    ensures Byte(x) == x
  {
  }

  /** Averages of percentages that are percentages: no byte wraps, and the four residencies
      of a non-empty window make 100 to within rounding. */
  lemma ResidenciesAddUp(samples: seq<Sample>)
    requires |samples| > 0 && forall i :: 0 <= i < |samples| ==> Sound(samples[i])
    ensures var a := AverageOf(samples);
            99 <= a.cpuMax as int + a.apbMax as int + a.apbMin as int + a.sleep as int <= 102
  {
    TotalsAddUp(samples);
    AverageAddsUp(Total(samples), |samples|);
  }

  lemma AverageAddsUp(t: Sums, n: nat)
    requires n > 0 && t.cpu + t.apb + t.amin + t.slp == 100 * n
    ensures var a := Average(t, n);
            99 <= a.cpuMax as int + a.apbMax as int + a.apbMin as int + a.sleep as int <= 102
  {
    FourRounded(t.cpu, t.apb, t.amin, t.slp, n);
    ByteFits(Rounded(t.cpu, n));
    ByteFits(Rounded(t.apb, n));
    ByteFits(Rounded(t.amin, n));
    ByteFits(Rounded(t.slp, n));
  }

  // ---- Each average is the nearest whole number to its own mean ----

  lemma {:induction false} TotalsAreBytes(samples: seq<Sample>)
    ensures var t, n := Total(samples), |samples|;
            t.cpu <= 255 * n && t.apb <= 255 * n && t.amin <= 100 * n && t.slp <= 255 * n
    decreases |samples|
  {
    if samples == [] {
    } else {
      TotalsAreBytes(samples[..|samples| - 1]);
    }
  }

  lemma RoundedIsByte(sum: nat, n: nat)
    requires n > 0 && sum <= 255 * n
    ensures Byte(Rounded(sum, n)) == Rounded(sum, n)
  {
    RoundedBounds(sum, n);
    NearByte(sum, n, Rounded(sum, n));
    ByteFits(Rounded(sum, n));
  }

  lemma NearByte(sum: nat, n: nat, q: nat)
    requires n > 0 && sum <= 255 * n && Near(n, sum, q)
    ensures q <= 255
  {
    TimesGrows(n, q, 256);
  }

  lemma TimesGrows(n: nat, q: nat, k: nat)
    ensures q >= k ==> n * q >= n * k
  {
    if q >= k { assert n * q == n * k + n * (q - k); }
  }

  /** For any samples: no average wraps its byte, each is its own mode's mean rounded to the
      nearest, and the current is that of the averages to within half a tenth. */
  lemma AverageIsNearest(samples: seq<Sample>)
    requires |samples| > 0
    ensures var a, t, n := AverageOf(samples), Total(samples), |samples|;
            && Near(n, t.cpu, a.cpuMax) && Near(n, t.apb, a.apbMax)
            && Near(n, t.amin, a.apbMin) && Near(n, t.slp, a.sleep)
            && -5 <= 10 * a.mA10 - (40 * a.cpuMax as int + 30 * a.apbMax as int + 25 * a.apbMin as int + 2 * a.sleep as int) <= 5
  {
    var t, n := Total(samples), |samples|;
    TotalsAreBytes(samples);
    NearestByte(t.cpu, n);
    NearestByte(t.apb, n);
    NearestByte(t.amin, n);
    NearestByte(t.slp, n);
  }

  lemma NearestByte(sum: nat, n: nat)
    requires n > 0 && sum <= 255 * n
    ensures Byte(Rounded(sum, n)) == Rounded(sum, n) && Near(n, sum, Rounded(sum, n))
  {
    RoundedIsByte(sum, n);
    RoundedBounds(sum, n);
  }

  // ---- The ring ----

  /** C's remainder, which takes the sign of the dividend. */
  function CRemainder(a: int, b: int): int
    requires b > 0
  {
    if a >= 0 then a % b else -((-a) % b)
  }

  /** The k-th newest sample of a ring whose next write goes to `head`. */
  function Back(head: nat, k: nat, cap: nat): int { if k < head then head - 1 - k else head - 1 - k + cap }

  lemma SmallMod(x: nat, b: nat)
    requires b > 0
    ensures x < b ==> x % b == x
    ensures b <= x < 2 * b ==> x % b == x - b
  {
    var q := x / b;
    assert x == b * q + x % b;
    if q >= 2 { Above(b, q + 1, 2); }
  }

  /** The index expression of the averages names the k-th newest sample. */
  lemma BackIndex(head: nat, k: nat, cap: nat)
    requires head < cap && k < cap
    ensures 0 <= Back(head, k, cap) < cap
    ensures (CRemainder(head - 1 - k, cap) + cap) % cap == Back(head, k, cap)
  {
    var a := head - 1 - k;
    if a >= 0 {
      SmallMod(a, cap);
      SmallMod(a + cap, cap);
    } else {
      SmallMod(-a, cap);
      if -a < cap { SmallMod(a + cap, cap); } else { SmallMod(cap, cap); }
    }
  }

  /** The ring holds the newest `count` samples of the history, newest behind the head. */
  ghost predicate Holds(cells: seq<Sample>, head: nat, count: nat, history: seq<Sample>) {
    && count <= |cells| && count <= |history| && (|cells| > 0 ==> head < |cells|)
    && forall k :: 0 <= k < count ==>
         0 <= Back(head, k, |cells|) < |cells| && cells[Back(head, k, |cells|)] == history[|history| - 1 - k]
  }

  lemma HoldsOneMore(cells: seq<Sample>, head: nat, count: nat, history: seq<Sample>, e: Sample)
    requires Holds(cells, head, count, history) && head < |cells|
    ensures Holds(cells[head := e], if head + 1 < |cells| then head + 1 else 0,
                  if count < |cells| then count + 1 else count, history + [e])
  {
    var head' := if head + 1 < |cells| then head + 1 else 0;
    var n := if count < |cells| then count + 1 else count;
    var history' := history + [e];
    forall k | 0 <= k < n
      ensures 0 <= Back(head', k, |cells|) < |cells| && cells[head := e][Back(head', k, |cells|)] == history'[|history'| - 1 - k]
    {
      if k > 0 { assert Back(head', k, |cells|) == Back(head, k - 1, |cells|) != head; }
    }
  }

  /** For each window the average of its last samples, or of all there are. */
  function WindowAverages(history: seq<Sample>, count: nat): (r: seq<Avg>)
    requires count <= |history|
    ensures |r| == |WINDOWS|
  {
    seq(|WINDOWS|, i requires 0 <= i < |WINDOWS| => AverageOf(Last(history, Min(count, WINDOWS[i]))))
  }

  lemma WindowAverage(history: seq<Sample>, count: nat, i: nat)
    requires count <= |history| && i < |WINDOWS|
    ensures var n := Min(count, WINDOWS[i]); WindowAverages(history, count)[i] == Average(Total(Last(history, n)), n)
  {
  }

  lemma WindowsRise(i: nat, j: nat)
    requires i <= j < |WINDOWS|
    ensures WINDOWS[i] <= WINDOWS[j] <= WINDOWS[|WINDOWS| - 1]
  {
  }

  lemma WindowsEndingAt(history: seq<Sample>, count: nat, cnt: nat)
    requires cnt <= count <= |history|
    ensures forall i :: 0 <= i < |WINDOWS| && WINDOWS[i] == cnt ==>
              WindowAverages(history, count)[i] == Average(Total(Last(history, cnt)), cnt)
  {
    forall i | 0 <= i < |WINDOWS| && WINDOWS[i] == cnt
      ensures WindowAverages(history, count)[i] == Average(Total(Last(history, cnt)), cnt)
    {
      WindowAverage(history, count, i);
    }
  }

  lemma WindowsBeyond(history: seq<Sample>, count: nat, wi: nat)
    requires count <= |history| && wi < |WINDOWS| && count < WINDOWS[wi]
    ensures forall i :: wi <= i < |WINDOWS| ==>
              WindowAverages(history, count)[i] == Average(Total(Last(history, count)), count)
  {
    forall i | wi <= i < |WINDOWS|
      ensures WindowAverages(history, count)[i] == Average(Total(Last(history, count)), count)
    {
      WindowsRise(wi, i);
      WindowAverage(history, count, i);
    }
  }

  class Stats {
    const ring: array<Sample>         // length 0 while there is no ring
    var head: nat
    var count: nat
    ghost var history: seq<Sample>    // every sample appended

    ghost predicate Valid()
      reads this, ring
    {
      && Holds(ring[..], head, count, history)
      && count == Min(|history|, ring.Length)
      && (ring.Length == 0 ==> history == [])
    }

    /** The newest n samples, oldest first. */
    ghost function Newest(n: nat): seq<Sample>
      requires n <= |history|
      reads this
    {
      Last(history, n)
    }

    constructor (cap: nat)
      ensures Valid() && ring.Length == cap && fresh(ring) && history == []
    {
      ring := new Sample[cap](_ => NO_SAMPLE);
      head, count, history := 0, 0, [];
    }

    /** The append of one tick.  Without a ring the sample is not kept. */
    method Append(e: Sample)
      requires Valid()
      modifies this, ring
      ensures Valid()
      ensures history == if ring.Length == 0 then old(history) else old(history) + [e]
    {
      if ring.Length == 0 { return; }
      HoldsOneMore(ring[..], head, count, history, e);
      ring[head] := e;
      assert ring[..] == old(ring[..])[old(head) := e];
      SmallMod(head + 1, ring.Length);
      head := (head + 1) % ring.Length;
      if count < ring.Length { count := count + 1; }
      history := history + [e];
    }

    /** The k-th newest sample. */
    method Behind(k: nat) returns (e: Sample)
      requires Valid() && k < count
      ensures e == history[|history| - 1 - k]
    {
      BackIndex(head, k, ring.Length);
      e := ring[(CRemainder(head - 1 - k, ring.Length) + ring.Length) % ring.Length];
    }

    /** Where a walk over the newest n begins: at the oldest of them. */
    ghost predicate IsStart(start: nat, n: nat)
      reads this
    {
      n > 0 ==> start == Back(head, n - 1, ring.Length)
    }

    method StartOf(n: nat) returns (start: nat)
      requires Valid() && ring.Length > 0 && n <= count
      ensures IsStart(start, n)
    {
      start := (CRemainder(head - n, ring.Length) + ring.Length) % ring.Length;
      if n > 0 {
        BackIndex(head, n - 1, ring.Length);
        assert head - n == head - 1 - (n - 1);
      }
    }

    method Ahead(start: nat, i: nat, n: nat) returns (e: Sample)
      requires Valid() && i < n <= count && IsStart(start, n)
      ensures e == Newest(n)[i]
    {
      SmallMod(start + i, ring.Length);
      e := ring[(start + i) % ring.Length];
      assert (start + i) % ring.Length == Back(head, n - 1 - i, ring.Length);
    }

    /** pmStatsHistory: the newest samples, oldest first, and how many. */
    method History(out: array<Sample>, max: int) returns (n: nat)
      requires Valid() && out != ring && max <= out.Length
      modifies out
      ensures n == (if max <= 0 then 0 else Min(count, max)) && out[..n] == Newest(n)
    {
      if max <= 0 || ring.Length == 0 { return 0; }
      n := if count < max then count else max;
      var start := StartOf(n);
      CopyNewest(out, start, n);
    }

    method CopyNewest(out: array<Sample>, start: nat, n: nat)
      requires Valid() && out != ring && n <= count && n <= out.Length && IsStart(start, n)
      modifies out
      ensures out[..n] == Newest(n)
    {
      ghost var want := Newest(n);
      var i := 0;
      while i < n
        invariant i <= n && out[..i] == want[..i] && ring[..] == old(ring[..])
      {
        var e := Ahead(start, i, n);
        out[i] := e;
        assert out[..i + 1] == out[..i] + [want[i]];
        i := i + 1;
      }
    }

    /** The sums of the newest n, oldest first. */
    method SumNewest(n: nat) returns (sums: Sums)
      requires Valid() && ring.Length > 0 && n <= count
      ensures sums == Total(Newest(n))
    {
      sums := Sums(0, 0, 0, 0);
      var start := StartOf(n);
      var i := 0;
      while i < n
        invariant i <= n && sums == Total(Newest(n)[..i])
      {
        var e := Ahead(start, i, n);
        sums := Add(sums, e);
        assert Newest(n)[..i + 1][..i] == Newest(n)[..i];
        i := i + 1;
      }
      assert Newest(n)[..n] == Newest(n);
    }

    /** pmStatsAvg: the average of the last `secs` samples, or of all there are. */
    method AvgOver(secs: int) returns (out: Avg, n: nat)
      requires Valid()
      ensures n == Min(count, if secs <= 0 then 300 else secs) && out == AverageOf(Newest(n))
    {
      var w := if secs <= 0 then 300 else secs;
      var sums := Sums(0, 0, 0, 0);
      n := 0;
      if ring.Length > 0 {
        n := if count < w then count else w;
        sums := SumNewest(n);
      }
      out := Average(sums, n);
    }

    /** Fill in the windows that end at this count, with the average so far. */
    method Snapshot(out: array<Avg>, from: nat, cnt: nat, sums: Sums, ghost want: seq<Avg>) returns (wi: nat)
      requires out.Length == |WINDOWS| == |want| && from <= |WINDOWS| && out[..from] == want[..from]
      requires forall i :: 0 <= i < |WINDOWS| && WINDOWS[i] == cnt ==> want[i] == Average(sums, cnt)
      requires from < |WINDOWS| ==> cnt <= WINDOWS[from]
      modifies out
      ensures from <= wi <= |WINDOWS| && out[..wi] == want[..wi] && (wi < |WINDOWS| ==> cnt < WINDOWS[wi])
    {
      wi := from;
      while wi < |WINDOWS| && cnt == WINDOWS[wi]
        invariant from <= wi <= |WINDOWS| && out[..wi] == want[..wi]
        invariant wi < |WINDOWS| ==> cnt <= WINDOWS[wi]
      {
        out[wi] := Average(sums, cnt);
        assert out[..wi + 1] == out[..wi] + [want[wi]];
        wi := wi + 1;
      }
    }

    /** One sample further back. */
    method AddBehind(cnt: nat, sums: Sums) returns (sums': Sums)
      requires Valid() && cnt < count && sums == Total(Newest(cnt))
      ensures sums' == Total(Newest(cnt + 1))
    {
      TotalOneMore(history, cnt);
      var e := Behind(cnt);
      sums' := Add(sums, e);
    }

    /** The backward pass over the newest `total` samples, filling in windows as it goes. */
    method Pass(out: array<Avg>, total: nat) returns (sums: Sums, wi: nat)
      requires Valid() && out.Length == |WINDOWS| && total <= count
      modifies out
      ensures sums == Total(Newest(total)) && wi <= |WINDOWS| && (wi < |WINDOWS| ==> total < WINDOWS[wi])
      ensures out[..wi] == WindowAverages(history, count)[..wi]
    {
      ghost var want := WindowAverages(history, count);
      sums, wi := Sums(0, 0, 0, 0), 0;
      var cnt := 0;
      while cnt < total
        invariant cnt <= total && wi <= |WINDOWS| && ring[..] == old(ring[..])
        invariant sums == Total(Newest(cnt)) && out[..wi] == want[..wi]
        invariant wi < |WINDOWS| ==> cnt < WINDOWS[wi]
      {
        sums := AddBehind(cnt, sums);
        cnt := cnt + 1;
        WindowsEndingAt(history, count, cnt);
        wi := Snapshot(out, wi, cnt, sums, want);
      }
    }

    /** pmStatsAvgSet: all windows in one backward pass. */
    method AvgSet(out: array<Avg>)
      requires Valid() && out.Length == |WINDOWS|
      modifies out
      ensures out[..] == WindowAverages(history, count)
    {
      var total := 0;
      if ring.Length > 0 {
        total := if count < WINDOWS[|WINDOWS| - 1] then count else WINDOWS[|WINDOWS| - 1];
      }
      var sums, wi := Pass(out, total);
      if wi < |WINDOWS| {
        WindowsRise(wi, wi);
        assert total == count;
        WindowsBeyond(history, count, wi);
      }
      FillRest(out, wi, total, sums, WindowAverages(history, count));
    }

    /** The one pass and the single-window average agree: for every window, capacity and
        fill they give the same average. */
    method WindowsAgree(out: array<Avg>, i: nat) returns (single: Avg)
      requires Valid() && out.Length == |WINDOWS| && i < |WINDOWS|
      modifies out
      ensures out[i] == single == AverageOf(Newest(Min(count, WINDOWS[i])))
    {
      var n;
      single, n := AvgOver(WINDOWS[i]);
      AvgSet(out);
      WindowAverage(history, count, i);
      assert out[i] == out[..][i];
    }

    /** The windows longer than what there is get the average of it all. */
    method FillRest(out: array<Avg>, from: nat, cnt: nat, sums: Sums, ghost want: seq<Avg>)
      requires out.Length == |WINDOWS| == |want| && from <= |WINDOWS| && out[..from] == want[..from]
      requires forall i :: from <= i < |WINDOWS| ==> want[i] == Average(sums, cnt)
      modifies out
      ensures out[..] == want
    {
      var wi := from;
      while wi < |WINDOWS|
        invariant from <= wi <= |WINDOWS| && out[..wi] == want[..wi]
      {
        out[wi] := Average(sums, cnt);
        assert out[..wi + 1] == out[..wi] + [want[wi]];
        wi := wi + 1;
      }
    }
  }
}
