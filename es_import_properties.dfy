/** What the import retry loop of es/engie.go guarantees, stated about the
    trace predicate `ImportTrace` that `EsEngine.Import` is proved to meet,
    and about the sleeps (`Backoffs`) and progress counter (`Progress`) it reports. */
module EsImportProperties {
  import opened EsEngine

  // ------------------------------------------------------------ helpers

  lemma ChainedPrefix(data: seq<string>, indexOk: nat -> bool, t: seq<Call>, k: nat)
    requires Chained(data, indexOk, t) && k <= |t|
    ensures Chained(data, indexOk, t[..k])
  {
    var u := t[..k];
    forall c | 0 <= c < |u|
      ensures WriteFollows(data, indexOk, u, c)
    {
      assert WriteFollows(data, indexOk, t, c);
      assert u[..c] == t[..c];
    }
  }

  lemma BoundedPrefix(t: seq<Call>, k: nat)
    requires Bounded(t) && k <= |t|
    ensures Bounded(t[..k])
  {
    var u := t[..k];
    forall c | 0 <= c < |u|
      ensures UnderLimit(u, c)
    {
      assert UnderLimit(t, c);
      assert u[..c] == t[..c];
    }
  }

  /** The last write of a non-empty chained trace, spelt out. */
  lemma LastWrite(data: seq<string>, indexOk: nat -> bool, t: seq<Call>)
    requires Chained(data, indexOk, t) && t != []
    ensures Last(t).pos == NextPos(Init(t)) && Last(t).pos < |data|
    ensures Last(t).doc == data[Last(t).pos] && Last(t).ok == indexOk(|t| - 1)
  {
    assert WriteFollows(data, indexOk, t, |t| - 1);
  }

  // ------------------------------------------------------------ ordering

  /** The lines indexed successfully are exactly the first NextPos(t) lines
      of the input, in input order: each line is indexed at most once and a
      line is indexed only after all lines before it. */
  lemma {:induction false} DeliveredIsPrefix(data: seq<string>, indexOk: nat -> bool, t: seq<Call>)
    requires Chained(data, indexOk, t)
    ensures NextPos(t) <= |data|
    ensures Delivered(t) == data[..NextPos(t)]
  {
    if t != [] {
      var p := Init(t);
      ChainedPrefix(data, indexOk, t, |t| - 1);
      DeliveredIsPrefix(data, indexOk, p);
      LastWrite(data, indexOk, t);
      if Last(t).ok {
        assert data[..NextPos(p)] + [data[NextPos(p)]] == data[..NextPos(p) + 1];
      }
    }
  }

  /** The first write sends the first line. */
  lemma FirstWriteIsFirstLine(data: seq<string>, indexOk: nat -> bool, t: seq<Call>)
    requires Chained(data, indexOk, t) && t != []
    ensures data != [] && t[0].pos == 0 && t[0].doc == data[0]
  {
    assert WriteFollows(data, indexOk, t, 0);
  }

  /** After a failed write the next write resends the same line; after a
      successful one it sends the following line. */
  lemma ResumeAtFailure(data: seq<string>, indexOk: nat -> bool, t: seq<Call>, c: nat)
    requires Chained(data, indexOk, t) && c + 1 < |t|
    ensures t[c + 1].pos == if t[c].ok then t[c].pos + 1 else t[c].pos
    ensures !t[c].ok ==> t[c + 1].doc == t[c].doc
  {
    assert WriteFollows(data, indexOk, t, c + 1);
    assert WriteFollows(data, indexOk, t, c);
    assert Last(t[..c + 1]) == t[c];
  }

  /** Later writes never go back: a later write is at the same or a later
      line, and strictly later than any line already indexed. So no line is
      indexed twice and no line before a failure is ever resent. */
  lemma {:induction false} NeverBackwards(data: seq<string>, indexOk: nat -> bool, t: seq<Call>, c1: nat, c2: nat)
    requires Chained(data, indexOk, t) && c1 < c2 < |t|
    ensures t[c1].pos + (if t[c1].ok then 1 else 0) <= t[c2].pos
    decreases c2
  {
    ResumeAtFailure(data, indexOk, t, c2 - 1);
    if c1 < c2 - 1 {
      NeverBackwards(data, indexOk, t, c1, c2 - 1);
    }
  }

  /** Two successful writes never send the same line. */
  lemma IndexedAtMostOnce(data: seq<string>, indexOk: nat -> bool, t: seq<Call>, c1: nat, c2: nat)
    requires Chained(data, indexOk, t) && c1 < |t| && c2 < |t| && c1 != c2
    requires t[c1].ok && t[c2].ok
    ensures t[c1].pos != t[c2].pos
  {
    if c1 < c2 {
      NeverBackwards(data, indexOk, t, c1, c2);
    } else {
      NeverBackwards(data, indexOk, t, c2, c1);
    }
  }

  // ------------------------------------------------------------ bounds

  lemma {:induction false} TrailingFailsAtLeast(t: seq<Call>, m: nat)
    requires m <= |t|
    requires forall q :: |t| - m <= q < |t| ==> !t[q].ok
    ensures TrailingFails(t) >= m
  {
    if m > 0 {
      var p := Init(t);
      assert !Last(t).ok;
      forall q | |p| - (m - 1) <= q < |p|
        ensures !p[q].ok
      {
        assert p[q] == t[q];
      }
      TrailingFailsAtLeast(p, m - 1);
    }
  }

  /** No run of failed writes is longer than MaxRetry: one line is tried at
      most ten times in a row. */
  lemma AtMostMaxRetryInARow(data: seq<string>, indexOk: nat -> bool, t: seq<Call>, c: nat, m: nat)
    requires ImportTrace(data, indexOk, t)
    requires c + m <= |t|
    requires forall q :: c <= q < c + m ==> !t[q].ok
    ensures m <= MaxRetry
  {
    var k := c + m;
    var u := t[..k];
    forall q | |u| - m <= q < |u|
      ensures !u[q].ok
    {
      assert u[q] == t[q];
    }
    TrailingFailsAtLeast(u, m);
    if k < |t| {
      assert UnderLimit(t, k);
    } else {
      assert u == t;
    }
  }

  lemma {:induction false} Potential(data: seq<string>, indexOk: nat -> bool, t: seq<Call>)
    requires Chained(data, indexOk, t) && Bounded(t)
    ensures |t| <= MaxRetry * NextPos(t) + TrailingFails(t)
  {
    if t != [] {
      var p := Init(t);
      ChainedPrefix(data, indexOk, t, |t| - 1);
      BoundedPrefix(t, |t| - 1);
      Potential(data, indexOk, p);
      LastWrite(data, indexOk, t);
      assert UnderLimit(t, |t| - 1);
    }
  }

  /** The loop terminates within MaxRetry writes per input line. */
  lemma RunLength(data: seq<string>, indexOk: nat -> bool, t: seq<Call>)
    requires ImportTrace(data, indexOk, t)
    ensures |t| <= MaxRetry * |data|
  {
    Potential(data, indexOk, t);
  }

  /** An unfinished run leaves exactly the suffix from NextPos(t) unindexed,
      after ten failures in a row at that line. */
  lemma GivingUpLeavesSuffix(data: seq<string>, indexOk: nat -> bool, t: seq<Call>)
    requires ImportTrace(data, indexOk, t)
    requires |Delivered(t)| < |data|
    ensures TrailingFails(t) == MaxRetry
    ensures Delivered(t) + data[NextPos(t)..] == data
    ensures t != [] && !Last(t).ok && Last(t).pos == NextPos(t)
  {
    DeliveredIsPrefix(data, indexOk, t);
    assert data[..NextPos(t)] + data[NextPos(t)..] == data;
  }

  /** Every input line is indexed exactly when the run ends without ten
      failures in a row. */
  lemma CompleteIff(data: seq<string>, indexOk: nat -> bool, t: seq<Call>)
    requires ImportTrace(data, indexOk, t)
    ensures Delivered(t) == data <==> TrailingFails(t) < MaxRetry
  {
    DeliveredIsPrefix(data, indexOk, t);
  }

  // ------------------------------------------------------------ backoff

  /** Every sleep is 5·r seconds for a count r of failures in a row, with
      1 <= r < MaxRetry: linear, never more than 45 seconds. */
  lemma {:induction false} BackoffsLinear(t: seq<Call>)
    requires Bounded(t)
    ensures forall q :: 0 <= q < |Backoffs(t)| ==>
      Backoffs(t)[q] % BackoffUnit == 0 && BackoffUnit <= Backoffs(t)[q] <= BackoffUnit * (MaxRetry - 1)
  {
    if t != [] {
      var p := Init(t);
      BoundedPrefix(t, |t| - 1);
      BackoffsLinear(p);
      assert UnderLimit(t, |t| - 1);
    }
  }

  /** The number of failed writes in `t`. */
  function Failures(t: seq<Call>): nat
  {
    if t == [] then 0 else Failures(Init(t)) + (if Last(t).ok then 0 else 1)
  }

  lemma {:induction false} SleepsFollowFailures(t: seq<Call>)
    requires t != []
    ensures |Backoffs(t)| == Failures(Init(t))
  {
    var p := Init(t);
    if p != [] {
      SleepsFollowFailures(p);
    }
  }

  /** A sleep follows every failed write except the one that makes the loop
      give up; in particular there is no sleep before the first pass. */
  lemma SleepsCount(data: seq<string>, indexOk: nat -> bool, t: seq<Call>)
    requires ImportTrace(data, indexOk, t)
    ensures |Backoffs(t)| + (if TrailingFails(t) == MaxRetry then 1 else 0) == Failures(t)
  {
    if t != [] {
      SleepsFollowFailures(t);
    }
  }

  /** The sleep before a retry is exactly BackoffUnit times the number of
      failures in a row (`5*hasRetry`), and that number is between 1 and 9. */
  lemma SleepBeforeRetry(data: seq<string>, indexOk: nat -> bool, t: seq<Call>, c: nat)
    requires ImportTrace(data, indexOk, t) && 0 < c < |t| && !t[c - 1].ok
    ensures Backoffs(t[..c + 1]) == Backoffs(t[..c]) + [BackoffUnit * TrailingFails(t[..c])]
    ensures 1 <= TrailingFails(t[..c]) < MaxRetry
  {
    assert t[..c + 1] == t[..c] + [t[c]];
    SnocFacts(t[..c], t[c], k => false);
    assert Last(t[..c]) == t[c - 1];
    assert UnderLimit(t, c);
  }

  lemma {:induction false} AllFailFacts(data: seq<string>, indexOk: nat -> bool, t: seq<Call>)
    requires Chained(data, indexOk, t) && t != []
    requires forall c :: 0 <= c < |t| ==> !t[c].ok
    ensures data != []
    ensures forall c :: 0 <= c < |t| ==> t[c] == Call(0, data[0], false)
    ensures NextPos(t) == 0 && TrailingFails(t) == |t|
    ensures Backoffs(t) == seq(|t| - 1, q => BackoffUnit * (q + 1))
  {
    LastWrite(data, indexOk, t);
    var p := Init(t);
    if p == [] {
      assert t == [t[0]];
    } else {
      ChainedPrefix(data, indexOk, t, |t| - 1);
      AllFailFacts(data, indexOk, p);
      forall c | 0 <= c < |t|
        ensures t[c] == Call(0, data[0], false)
      {
        if c < |p| { assert t[c] == p[c]; }
      }
    }
  }

  /** When every write fails, the first line is tried ten times, with sleeps of
      5, 10, ..., 45 seconds between the tries, and nothing is indexed. */
  lemma EveryWriteFails(data: seq<string>, indexOk: nat -> bool, t: seq<Call>)
    requires data != [] && forall k :: !indexOk(k)
    requires ImportTrace(data, indexOk, t)
    ensures |t| == MaxRetry
    ensures forall c :: 0 <= c < |t| ==> t[c] == Call(0, data[0], false)
    ensures Backoffs(t) == [5, 10, 15, 20, 25, 30, 35, 40, 45]
    ensures Delivered(t) == []
  {
    forall c | 0 <= c < |t|
      ensures !t[c].ok
    {
      assert WriteFollows(data, indexOk, t, c);
    }
    if t == [] {
      assert false;
    }
    AllFailFacts(data, indexOk, t);
    assert |t| == MaxRetry;
    NineSleeps();
    DeliveredIsPrefix(data, indexOk, t);
  }

  lemma NineSleeps()
    ensures seq(MaxRetry - 1, q => BackoffUnit * (q + 1)) == [5, 10, 15, 20, 25, 30, 35, 40, 45]
  {
  }

  // ------------------------------------------------------------ success paths

  lemma {:induction false} AllOkFacts(data: seq<string>, indexOk: nat -> bool, t: seq<Call>)
    requires Chained(data, indexOk, t)
    requires forall c :: 0 <= c < |t| ==> t[c].ok
    ensures |t| <= |data|
    ensures forall c :: 0 <= c < |t| ==> t[c] == Call(c, data[c], true)
    ensures NextPos(t) == |t| && TrailingFails(t) == 0 && TrailingSuccesses(t) == |t|
    ensures Backoffs(t) == []
  {
    if t != [] {
      var p := Init(t);
      LastWrite(data, indexOk, t);
      ChainedPrefix(data, indexOk, t, |t| - 1);
      AllOkFacts(data, indexOk, p);
      forall c | 0 <= c < |t|
        ensures t[c] == Call(c, data[c], true)
      {
        if c < |p| { assert t[c] == p[c]; }
      }
    }
  }

  /** When every write succeeds there is one pass: write c sends line c, every
      line is indexed once, and the loop never sleeps. */
  lemma EveryWriteSucceeds(data: seq<string>, indexOk: nat -> bool, t: seq<Call>)
    requires forall k :: indexOk(k)
    requires ImportTrace(data, indexOk, t)
    ensures |t| == |data|
    ensures forall c :: 0 <= c < |t| ==> t[c] == Call(c, data[c], true)
    ensures Backoffs(t) == []
    ensures Delivered(t) == data
  {
    forall c | 0 <= c < |t|
      ensures t[c].ok
    {
      assert WriteFollows(data, indexOk, t, c);
    }
    AllOkFacts(data, indexOk, t);
    DeliveredIsPrefix(data, indexOk, t);
  }

  /** Empty input: no write, no sleep, no progress. */
  lemma EmptyInput(indexOk: nat -> bool, tickReady: nat -> bool, t: seq<Call>)
    requires ImportTrace([], indexOk, t)
    ensures t == [] && Backoffs(t) == [] && Progress(t, tickReady) == 0
  {
  }

  // ------------------------------------------------------------ determinism

  lemma {:induction false} AgreeUpTo(data: seq<string>, indexOk: nat -> bool, t1: seq<Call>, t2: seq<Call>, k: nat)
    requires Chained(data, indexOk, t1) && Chained(data, indexOk, t2)
    requires k <= |t1| && k <= |t2|
    ensures t1[..k] == t2[..k]
  {
    if k > 0 {
      AgreeUpTo(data, indexOk, t1, t2, k - 1);
      assert WriteFollows(data, indexOk, t1, k - 1) && WriteFollows(data, indexOk, t2, k - 1);
      assert t1[..k] == t1[..k - 1] + [t1[k - 1]];
      assert t2[..k] == t2[..k - 1] + [t2[k - 1]];
    }
  }

  /** A run that goes on past `k` writes was not finished after them. */
  lemma NotFinishedBeforeEnd(data: seq<string>, indexOk: nat -> bool, t: seq<Call>, k: nat)
    requires Chained(data, indexOk, t) && Bounded(t) && k < |t|
    ensures !Finished(data, t[..k])
  {
    assert WriteFollows(data, indexOk, t, k);
    assert UnderLimit(t, k);
  }

  /** The trace predicate leaves no freedom: given the input and the oracle's
      answers there is exactly one run. */
  lemma ImportTraceUnique(data: seq<string>, indexOk: nat -> bool, t1: seq<Call>, t2: seq<Call>)
    requires ImportTrace(data, indexOk, t1) && ImportTrace(data, indexOk, t2)
    ensures t1 == t2
  {
    if |t1| < |t2| {
      AgreeUpTo(data, indexOk, t1, t2, |t1|);
      assert t1 == t1[..|t1|];
      NotFinishedBeforeEnd(data, indexOk, t2, |t1|);
      assert false;
    } else if |t2| < |t1| {
      AgreeUpTo(data, indexOk, t1, t2, |t2|);
      assert t2 == t2[..|t2|];
      NotFinishedBeforeEnd(data, indexOk, t1, |t2|);
      assert false;
    } else {
      AgreeUpTo(data, indexOk, t1, t2, |t1|);
      assert t1 == t1[..|t1|] && t2 == t2[..|t2|];
    }
  }

  // ------------------------------------------------------------ progress

  /** `totalLoad` only moves on a pending tick: with none, it stays 0. */
  lemma {:induction false} NoTickNoProgress(t: seq<Call>, tickReady: nat -> bool)
    requires forall c :: !tickReady(c)
    ensures Progress(t, tickReady) == 0
  {
    if t != [] {
      NoTickNoProgress(Init(t), tickReady);
    }
  }

  lemma {:induction false} TrailingSuccessesOfAllOk(t: seq<Call>)
    requires forall c :: 0 <= c < |t| ==> t[c].ok
    ensures TrailingSuccesses(t) == |t|
  {
    if t != [] {
      var p := Init(t);
      assert forall c :: 0 <= c < |p| ==> p[c] == t[c];
      TrailingSuccessesOfAllOk(p);
    }
  }

  lemma TriangleStep(n: nat)
    ensures (n + 1) * n == n * (n - 1) + 2 * n
  {
  }

  lemma {:induction false} ProgressOfAllOk(t: seq<Call>, tickReady: nat -> bool)
    requires forall c :: 0 <= c < |t| ==> t[c].ok
    requires forall c :: tickReady(c)
    ensures 2 * Progress(t, tickReady) == |t| * (|t| - 1)
  {
    if t != [] {
      var p := Init(t);
      var n := |p|;
      assert forall c :: 0 <= c < n ==> p[c] == t[c];
      ProgressOfAllOk(p, tickReady);
      TrailingSuccessesOfAllOk(p);
      assert Last(t).ok && tickReady(n);
      assert Progress(t, tickReady) == Progress(p, tickReady) + n;
      TriangleStep(n);
    }
  }

  /** With every write succeeding and a tick pending at every check,
      `totalLoad` ends at 0 + 1 + ... + (n-1) for n lines: each tick adds the
      in-pass index, not one record. */
  lemma ProgressSumsIndices(data: seq<string>, indexOk: nat -> bool, tickReady: nat -> bool, t: seq<Call>)
    requires forall k :: indexOk(k)
    requires forall c :: tickReady(c)
    requires ImportTrace(data, indexOk, t)
    ensures 2 * Progress(t, tickReady) == |data| * (|data| - 1)
  {
    EveryWriteSucceeds(data, indexOk, t);
    ProgressOfAllOk(t, tickReady);
  }

  // ------------------------------------------------------------ a worked run

  /** The three input lines of the worked run. */
  const ScenarioData: seq<string> := ["{\"a\":1}", "{\"a\":2}", "{\"a\":3}"]

  /** An index that fails the second call (call 1) and accepts every other. */
  function FailSecondCall(k: nat): bool
  {
    k != 1
  }

  /** Three lines, the second write fails once: the run writes lines 0, 1, 1,
      2, sleeps 5 seconds once, indexes all three in order, and with a tick
      pending at every check ends with `totalLoad` 1. */
  lemma RetryOnceScenario(tickReady: nat -> bool, t: seq<Call>)
    requires forall c :: tickReady(c)
    requires ImportTrace(ScenarioData, FailSecondCall, t)
    ensures t == [Call(0, ScenarioData[0], true), Call(1, ScenarioData[1], false),
                  Call(1, ScenarioData[1], true), Call(2, ScenarioData[2], true)]
    ensures Backoffs(t) == [5]
    ensures Delivered(t) == ScenarioData
    ensures Progress(t, tickReady) == 1
  {
    var data, ok := ScenarioData, FailSecondCall;
    var c0, c1, c2, c3 := Call(0, data[0], true), Call(1, data[1], false), Call(1, data[1], true), Call(2, data[2], true);
    var e1 := [c0];
    assert e1 == [] + [c0];
    SnocFacts([], c0, tickReady);
    ChainedSnoc(data, ok, [], c0);
    BoundedSnoc([], c0);
    var e2 := e1 + [c1];
    SnocFacts(e1, c1, tickReady);
    ChainedSnoc(data, ok, e1, c1);
    BoundedSnoc(e1, c1);
    var e3 := e2 + [c2];
    SnocFacts(e2, c2, tickReady);
    ChainedSnoc(data, ok, e2, c2);
    BoundedSnoc(e2, c2);
    var e := e3 + [c3];
    SnocFacts(e3, c3, tickReady);
    ChainedSnoc(data, ok, e3, c3);
    BoundedSnoc(e3, c3);
    assert Delivered(e1) == [data[0]];
    assert Delivered(e3) == [data[0], data[1]];
    assert Delivered(e) == data;
    assert ImportTrace(data, ok, e);
    ImportTraceUnique(data, ok, t, e);
  }
}
