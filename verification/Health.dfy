/** The hysteresis tracker between probe results and BGP announcements. */
module Health {

  datatype ProbeResult = ProbeResult(ok: bool, detail: string)

  /** The two counters and the gated state. */
  datatype Track = Track(failCount: nat, recoverCount: nat, healthy: bool)

  const COLD := Track(0, 0, false)

  function Step(failThreshold: int, recoverThreshold: int, t: Track, ok: bool): Track {
    if ok then Track(0, t.recoverCount + 1, t.healthy || t.recoverCount + 1 >= recoverThreshold)
    else Track(t.failCount + 1, 0, t.healthy && t.failCount + 1 < failThreshold)
  }

  /** The tracker after a whole trace of probe results, from cold start. */
  function Run(failThreshold: int, recoverThreshold: int, s: seq<bool>): Track {
    if s == [] then COLD
    else Step(failThreshold, recoverThreshold, Run(failThreshold, recoverThreshold, s[..|s| - 1]), s[|s| - 1])
  }

  /** `n` results from index `a` on all equal `ok`. */
  predicate AllEqual(s: seq<bool>, a: int, n: nat, ok: bool)
    requires 0 <= a && a + n <= |s|
  {
    forall i | a <= i < a + n :: s[i] == ok
  }

  predicate EndsWith(s: seq<bool>, n: nat, ok: bool)
    requires n <= |s|
  {
    AllEqual(s, |s| - n, n, ok)
  }

  /** A threshold below one acts as one. */
  function AtLeastOne(threshold: int): nat {
    if threshold < 1 then 1 else threshold
  }

  /** The window definition of health: R successes in a row end at `e`, and from `e` on there
      are never F failures in a row. */
  ghost predicate RecoveredAt(f: nat, r: nat, s: seq<bool>, e: int) {
    && r <= e <= |s| && AllEqual(s, e - r, r, true)
    && forall a | e <= a && a + f <= |s| :: !AllEqual(s, a, f, false)
  }

  ghost predicate WindowHealthy(failThreshold: int, recoverThreshold: int, s: seq<bool>) {
    exists e :: RecoveredAt(AtLeastOne(failThreshold), AtLeastOne(recoverThreshold), s, e)
  }

  class Tracker {
    const failThreshold: int
    const recoverThreshold: int
    var failCount: nat
    var recoverCount: nat
    var healthy: bool
    var last: ProbeResult
    ghost var trace: seq<bool>

    ghost predicate Valid()
      reads this
    {
      Track(failCount, recoverCount, healthy) == Run(failThreshold, recoverThreshold, trace)
    }

    constructor (failThreshold: int, recoverThreshold: int)
      ensures Valid() && trace == [] && !healthy
      ensures this.failThreshold == failThreshold && this.recoverThreshold == recoverThreshold
    {
      this.failThreshold := failThreshold;
      this.recoverThreshold := recoverThreshold;
      failCount, recoverCount, healthy := 0, 0, false;
      last := ProbeResult(false, "");
      trace := [];
    }

    method Observe(r: ProbeResult) returns (now: bool, changed: bool)
      requires Valid()
      modifies this
      ensures Valid() && trace == old(trace) + [r.ok] && last == r
      ensures now == healthy && changed == (healthy != old(healthy))
      ensures healthy <==> WindowHealthy(failThreshold, recoverThreshold, trace)
    {
      last := r;
      var prev := healthy;
      if r.ok {
        failCount := 0;
        recoverCount := recoverCount + 1;
        if !healthy && recoverCount >= recoverThreshold {
          healthy := true;
        }
      } else {
        recoverCount := 0;
        failCount := failCount + 1;
        if healthy && failCount >= failThreshold {
          healthy := false;
        }
      }
      trace := trace + [r.ok];
      assert trace[..|trace| - 1] == old(trace);
      HealthIsWindowed(failThreshold, recoverThreshold, trace);
      return healthy, healthy != prev;
    }
  }

  // ---------------------------------------------------------------- the window theorem

  lemma EndsWithStep(p: seq<bool>, x: bool, n: nat, ok: bool)
    requires n <= |p|
    ensures EndsWith(p + [x], n + 1, ok) <==> x == ok && EndsWith(p, n, ok)
  {
    var s := p + [x];
    assert s[|p|] == x && forall i | 0 <= i < |p| :: s[i] == p[i];
    if EndsWith(s, n + 1, ok) {
      assert forall i | |p| - n <= i < |p| :: s[i] == ok;
    }
  }

  /** The counters are the lengths of the trailing runs. */
  lemma {:induction false} CountersAreRuns(f: int, r: int, s: seq<bool>, n: nat)
    requires n <= |s|
    ensures Run(f, r, s).failCount <= |s| && Run(f, r, s).recoverCount <= |s|
    ensures EndsWith(s, n, true) <==> n <= Run(f, r, s).recoverCount
    ensures EndsWith(s, n, false) <==> n <= Run(f, r, s).failCount
  {
    if s != [] {
      var p, x := s[..|s| - 1], s[|s| - 1];
      assert s == p + [x];
      if n > 0 {
        CountersAreRuns(f, r, p, n - 1);
        EndsWithStep(p, x, n - 1, true);
        EndsWithStep(p, x, n - 1, false);
      } else {
        CountersAreRuns(f, r, p, 0);
      }
    }
  }

  lemma WindowOfPrefix(p: seq<bool>, x: bool, a: int, n: nat, ok: bool)
    requires 0 <= a && a + n <= |p|
    ensures AllEqual(p + [x], a, n, ok) == AllEqual(p, a, n, ok)
  {
    assert forall i | a <= i < a + n :: (p + [x])[i] == p[i];
  }

  /** Dropping the last result keeps a recovery that happened before it. */
  lemma RecoveryInPrefix(f: nat, r: nat, p: seq<bool>, x: bool, e: int)
    requires RecoveredAt(f, r, p + [x], e) && e <= |p|
    ensures RecoveredAt(f, r, p, e)
  {
    WindowOfPrefix(p, x, e - r, r, true);
    forall a | e <= a && a + f <= |p| ensures !AllEqual(p, a, f, false) {
      WindowOfPrefix(p, x, a, f, false);
      assert !AllEqual(p + [x], a, f, false);
    }
  }

  /** A recovery survives one more result unless that result completes F failures. */
  lemma RecoverySurvives(f: nat, r: nat, p: seq<bool>, x: bool, e: int)
    requires RecoveredAt(f, r, p, e)
    requires f <= |p| + 1 ==> !EndsWith(p + [x], f, false)
    ensures RecoveredAt(f, r, p + [x], e)
  {
    WindowOfPrefix(p, x, e - r, r, true);
    forall a | e <= a && a + f <= |p| + 1 ensures !AllEqual(p + [x], a, f, false) {
      if a + f <= |p| {
        WindowOfPrefix(p, x, a, f, false);
        assert !AllEqual(p, a, f, false);
      }
    }
  }

  /** The two-counter tracker is healthy exactly when the window definition says so. */
  lemma {:induction false} HealthIsWindowed(failThreshold: int, recoverThreshold: int, s: seq<bool>)
    ensures Run(failThreshold, recoverThreshold, s).healthy <==> WindowHealthy(failThreshold, recoverThreshold, s)
  {
    if s != [] {
      var p, x := s[..|s| - 1], s[|s| - 1];
      assert s == p + [x];
      HealthIsWindowed(failThreshold, recoverThreshold, p);
      if x {
        WindowAfterSuccess(failThreshold, recoverThreshold, p);
      } else {
        WindowAfterFailure(failThreshold, recoverThreshold, p);
      }
    }
  }

  lemma WindowAfterSuccess(failThreshold: int, recoverThreshold: int, p: seq<bool>)
    requires Run(failThreshold, recoverThreshold, p).healthy <==> WindowHealthy(failThreshold, recoverThreshold, p)
    ensures Run(failThreshold, recoverThreshold, p + [true]).healthy
       <==> WindowHealthy(failThreshold, recoverThreshold, p + [true])
  {
    var f, r := AtLeastOne(failThreshold), AtLeastOne(recoverThreshold);
    var s := p + [true];
    assert s[..|s| - 1] == p;
    var t := Run(failThreshold, recoverThreshold, p);
    if t.healthy {
      var e :| RecoveredAt(f, r, p, e);
      if f <= |s| {
        EndsWithStep(p, true, f - 1, false);
      }
      RecoverySurvives(f, r, p, true, e);
    } else if t.recoverCount + 1 >= r {
      CountersAreRuns(failThreshold, recoverThreshold, s, 0);
      CountersAreRuns(failThreshold, recoverThreshold, s, r);
      assert RecoveredAt(f, r, s, |s|);
    } else if e :| RecoveredAt(f, r, s, e) {
      CountersAreRuns(failThreshold, recoverThreshold, s, r);
      assert e < |s|;
      RecoveryInPrefix(f, r, p, true, e);
    }
  }

  lemma WindowAfterFailure(failThreshold: int, recoverThreshold: int, p: seq<bool>)
    requires Run(failThreshold, recoverThreshold, p).healthy <==> WindowHealthy(failThreshold, recoverThreshold, p)
    ensures Run(failThreshold, recoverThreshold, p + [false]).healthy
       <==> WindowHealthy(failThreshold, recoverThreshold, p + [false])
  {
    var f, r := AtLeastOne(failThreshold), AtLeastOne(recoverThreshold);
    var s := p + [false];
    assert s[..|s| - 1] == p;
    var t := Run(failThreshold, recoverThreshold, p);
    if t.healthy && t.failCount + 1 < f {
      var e :| RecoveredAt(f, r, p, e);
      if f <= |s| {
        CountersAreRuns(failThreshold, recoverThreshold, s, f);
      }
      RecoverySurvives(f, r, p, false, e);
    } else if e :| RecoveredAt(f, r, s, e) {
      assert s[e - 1];
      RecoveryInPrefix(f, r, p, false, e);
      CountersAreRuns(failThreshold, recoverThreshold, s, 0);
      CountersAreRuns(failThreshold, recoverThreshold, s, f);
    }
  }

  // ---------------------------------------------------------------- the flap bound

  function Changes(f: int, r: int, s: seq<bool>): nat {
    if s == [] then 0
    else
      var p := s[..|s| - 1];
      Changes(f, r, p) + if Run(f, r, p).healthy != Run(f, r, s).healthy then 1 else 0
  }

  /** The least number of observations that can hold `k` changes. */
  function Cost(f: nat, r: nat, k: nat): nat {
    if k == 0 then 0 else Cost(f, r, k - 1) + if k % 2 == 1 then r else f
  }

  lemma {:induction false} CostClosed(f: nat, r: nat, k: nat)
    ensures Cost(f, r, k) == (k + 1) / 2 * r + k / 2 * f
  {
    if k > 0 {
      CostClosed(f, r, k - 1);
      if k % 2 == 1 {
        assert (k + 1) / 2 == k / 2 + 1;
      } else {
        assert k / 2 == (k - 1) / 2 + 1;
      }
    }
  }

  lemma {:induction false} ChangesCost(f: int, r: int, s: seq<bool>)
    ensures var k := Changes(f, r, s);
            var t := Run(f, r, s);
            && (t.healthy <==> k % 2 == 1)
            && Cost(AtLeastOne(f), AtLeastOne(r), k) + (if t.healthy then t.failCount else t.recoverCount) <= |s|
  {
    if s != [] {
      ChangesCost(f, r, s[..|s| - 1]);
    }
  }

  /** k changes need ceil(k/2)*R + floor(k/2)*F observations. */
  lemma FlapBound(f: int, r: int, s: seq<bool>)
    ensures var k := Changes(f, r, s);
            (k + 1) / 2 * AtLeastOne(r) + k / 2 * AtLeastOne(f) <= |s|
  {
    ChangesCost(f, r, s);
    CostClosed(AtLeastOne(f), AtLeastOne(r), Changes(f, r, s));
  }

  function Repeat(n: nat, ok: bool): (s: seq<bool>)
    ensures |s| == n
  {
    if n == 0 then [] else Repeat(n - 1, ok) + [ok]
  }

  function FlapTrace(f: nat, r: nat, k: nat): seq<bool> {
    if k == 0 then []
    else FlapTrace(f, r, k - 1) + Repeat(if k % 2 == 1 then r else f, k % 2 == 1)
  }

  lemma Parity(k: nat) returns (odd: bool)
    requires k > 0
    ensures odd <==> k % 2 == 1
    ensures !odd <==> (k - 1) % 2 == 1
  {
    odd := k % 2 == 1;
  }

  lemma FlapStep(f: nat, r: nat, k: nat, up: bool)
    requires k > 0 && (up <==> k % 2 == 1)
    ensures FlapTrace(f, r, k) == FlapTrace(f, r, k - 1) + Repeat(if up then r else f, up)
    ensures Cost(f, r, k) == Cost(f, r, k - 1) + if up then r else f
  {
  }

  /** n results of one kind short of, or reaching, the threshold. */
  lemma {:induction false} RunRepeat(f: nat, r: nat, s: seq<bool>, n: nat)
    requires 1 <= f && 1 <= r
    requires var t := Run(f, r, s); if t.healthy then t.failCount == 0 && n <= f else t.recoverCount == 0 && n <= r
    ensures var t := Run(f, r, s);
            var all := s + Repeat(n, !t.healthy);
            var t' := Run(f, r, all);
            var flipped := n == if t.healthy then f else r;
            && t'.healthy == (t.healthy != flipped)
            && (if t.healthy then t'.failCount == n else t'.recoverCount == n)
            && (n > 0 ==> if t.healthy then t'.recoverCount == 0 else t'.failCount == 0)
            && Changes(f, r, all) == Changes(f, r, s) + if flipped then 1 else 0
  {
    var ok := !Run(f, r, s).healthy;
    if n == 0 {
      assert s + Repeat(0, ok) == s;
    } else {
      RunRepeat(f, r, s, n - 1);
      var all := s + Repeat(n, ok);
      assert all[..|all| - 1] == s + Repeat(n - 1, ok);
      assert all[|all| - 1] == ok;
    }
  }

  /** A run of exactly the threshold flips the tracker once. */
  lemma Flap(f: nat, r: nat, s: seq<bool>, up: bool)
    requires 1 <= f && 1 <= r
    requires var t := Run(f, r, s); t.healthy == !up && if up then t.recoverCount == 0 else t.failCount == 0
    ensures var t := Run(f, r, s);
            var all := s + Repeat(if up then r else f, up);
            var t' := Run(f, r, all);
            && t'.healthy == up && Changes(f, r, all) == Changes(f, r, s) + 1
            && if up then t'.failCount == 0 else t'.recoverCount == 0
  {
    RunRepeat(f, r, s, if up then r else f);
  }

  /** The bound is attained for every number of changes. */
  lemma {:induction false} FlapBoundIsTight(f: nat, r: nat, k: nat)
    requires 1 <= f && 1 <= r
    ensures var s := FlapTrace(f, r, k);
            && |s| == Cost(f, r, k) && Changes(f, r, s) == k
            && Run(f, r, s).healthy == (k % 2 == 1)
            && (if k % 2 == 1 then Run(f, r, s).failCount == 0 else Run(f, r, s).recoverCount == 0)
  {
    if k > 0 {
      var up := Parity(k);
      FlapStep(f, r, k, up);
      FlapBoundIsTight(f, r, k - 1);
      Flap(f, r, FlapTrace(f, r, k - 1), up);
    }
  }
}
