/** The transfer engine of es/engie.go: the run configuration, the branch `Do`
    takes on `Mode`, the export hit-conversion loop and the import retry loop.
    The search client is an oracle: a search is a function from the request
    to its outcome, an index write is a function from the number of the call
    to "succeeded or not", and the non-blocking ticker read is a function from
    the number of the call it follows to "a tick was pending or not". */
module EsEngine {
  import opened Wrappers

  /** The run configuration (`EsInfo` without the client handle and context). */
  datatype EsInfo = EsInfo(
    esUrl: string,
    esUser: string,
    esPass: string,
    esIndex: string,
    esType: string,
    esSize: int,
    isDebug: bool,
    mode: int)

  /** Which of the two pipelines `Do` runs, or neither. */
  datatype Branch = ExportToFile | ImportFromFile | NoTransfer

  /** The `switch e.Mode` of `Do`: 0 exports, 1 imports, anything else does nothing. */
  function DoBranch(e: EsInfo): (b: Branch)
    ensures b == ExportToFile <==> e.mode == 0
    ensures b == ImportFromFile <==> e.mode == 1
  {
    match e.mode
    case 0 => ExportToFile
    case 1 => ImportFromFile
    case _ => NoTransfer
  }

  // ---------------------------------------------------------------- export

  /** The one search `export` issues: the index, From and Size. */
  datatype SearchRequest = SearchRequest(index: string, from: int, size: int)

  const SearchErrorPrefix := "Search ElasticSearch Error. "

  /** `r` is what converting `hits` in order gives when conversion stops at
      the first hit `marshal` rejects: the converted hits before it, in order. */
  predicate MarshalledPrefix<S>(hits: seq<S>, marshal: S -> Option<string>, r: seq<string>)
  {
    && |r| <= |hits|
    && (forall q :: 0 <= q < |r| ==> marshal(hits[q]) == Some(r[q]))
    && (|r| < |hits| ==> marshal(hits[|r|]).None?)
  }

  /** `export`: one search (From 0, Size esSize) and the conversion of each
      hit's source to a JSON line, stopping silently at the first failure. */
  method Export<S>(e: EsInfo, search: SearchRequest -> Result<seq<S>, string>, marshal: S -> Option<string>)
    returns (result: seq<string>, err: Option<string>)
    ensures search(SearchRequest(e.esIndex, 0, e.esSize)).Failure? ==>
      result == [] && err == Some(SearchErrorPrefix + search(SearchRequest(e.esIndex, 0, e.esSize)).error)
    ensures search(SearchRequest(e.esIndex, 0, e.esSize)).Success? ==>
      err == None && MarshalledPrefix(search(SearchRequest(e.esIndex, 0, e.esSize)).value, marshal, result)
  {
    result := [];
    var searchResult := search(SearchRequest(e.esIndex, 0, e.esSize));
    if searchResult.Failure? {
      return [], Some(SearchErrorPrefix + searchResult.error);
    }
    var hits := searchResult.value;
    var i := 0;
    while i < |hits|
      invariant 0 <= i <= |hits|
      invariant |result| == i
      invariant forall q :: 0 <= q < i ==> marshal(hits[q]) == Some(result[q])
    {
      var content := marshal(hits[i]);
      if content.None? {
        break;
      }
      result := result + [content.value];
      i := i + 1;
    }
    err := None;
  }

  // ---------------------------------------------------------------- import

  /** One index write made by `esimport`: the position of the line in the
      input, the line sent as the body, and whether the write succeeded. */
  datatype Call = Call(pos: nat, doc: string, ok: bool)

  /** `esimport` gives up once this many writes in a row have failed. */
  const MaxRetry := 10

  /** Seconds slept per consecutive failure before a retry pass. */
  const BackoffUnit := 5

  function Last(t: seq<Call>): Call
    requires t != []
  {
    t[|t| - 1]
  }

  function Init(t: seq<Call>): seq<Call>
    requires t != []
  {
    t[..|t| - 1]
  }

  /** The number of failed writes at the end of `t` (the value of `hasRetry`);
      TrailingFailsMeaning states it. */
  function TrailingFails(t: seq<Call>): (n: nat)
    ensures n <= |t|
  {
    if t == [] || Last(t).ok then 0 else 1 + TrailingFails(Init(t))
  }

  /** The number of successful writes at the end of `t` (the in-pass index `i`);
      TrailingSuccessesMeaning states it. */
  function TrailingSuccesses(t: seq<Call>): (n: nat)
    ensures n <= |t|
  {
    if t == [] || !Last(t).ok then 0 else 1 + TrailingSuccesses(Init(t))
  }

  /** TrailingFails(t) counts exactly the failed writes at the end of `t`:
      the last n writes failed and the one before them, if any, succeeded. */
  lemma {:induction false} TrailingFailsMeaning(t: seq<Call>)
    ensures forall q :: |t| - TrailingFails(t) <= q < |t| ==> !t[q].ok
    ensures TrailingFails(t) < |t| ==> t[|t| - TrailingFails(t) - 1].ok
  {
    if t != [] && !Last(t).ok {
      var p := Init(t);
      TrailingFailsMeaning(p);
      assert forall q :: 0 <= q < |p| ==> p[q] == t[q];
    }
  }

  /** TrailingSuccesses(t) counts exactly the successful writes at the end of `t`. */
  lemma {:induction false} TrailingSuccessesMeaning(t: seq<Call>)
    ensures forall q :: |t| - TrailingSuccesses(t) <= q < |t| ==> t[q].ok
    ensures TrailingSuccesses(t) < |t| ==> !t[|t| - TrailingSuccesses(t) - 1].ok
  {
    if t != [] && Last(t).ok {
      var p := Init(t);
      TrailingSuccessesMeaning(p);
      assert forall q :: 0 <= q < |p| ==> p[q] == t[q];
    }
  }

  /** The position of the line the next write sends: the one after a success,
      the same one after a failure. */
  function NextPos(t: seq<Call>): nat
  {
    if t == [] then 0 else if Last(t).ok then Last(t).pos + 1 else Last(t).pos
  }

  /** The lines that were indexed, in the order of their successful writes. */
  function Delivered(t: seq<Call>): seq<string>
  {
    if t == [] then [] else Delivered(Init(t)) + (if Last(t).ok then [Last(t).doc] else [])
  }

  /** Write `c` sends the line at NextPos of the writes before it, and its
      outcome is the oracle's answer for its call number. */
  predicate WriteFollows(data: seq<string>, indexOk: nat -> bool, t: seq<Call>, c: nat)
    requires c < |t|
  {
    && t[c].pos == NextPos(t[..c])
    && t[c].pos < |data|
    && t[c].doc == data[t[c].pos]
    && t[c].ok == indexOk(c)
  }

  /** Every write of `t` follows from the ones before it. */
  predicate Chained(data: seq<string>, indexOk: nat -> bool, t: seq<Call>)
  {
    forall c :: 0 <= c < |t| ==> WriteFollows(data, indexOk, t, c)
  }

  /** Write `c` is made while fewer than MaxRetry writes in a row have failed. */
  predicate UnderLimit(t: seq<Call>, c: nat)
    requires c < |t|
  {
    TrailingFails(t[..c]) < MaxRetry
  }

  /** Every write of `t` is made under the retry limit. */
  predicate Bounded(t: seq<Call>)
  {
    forall c :: 0 <= c < |t| ==> UnderLimit(t, c)
  }

  /** The run stops either with every line indexed and no pending failure, or
      after MaxRetry failures in a row with a suffix of the input not indexed. */
  predicate Finished(data: seq<string>, t: seq<Call>)
  {
    || (NextPos(t) == |data| && TrailingFails(t) == 0)
    || (NextPos(t) < |data| && TrailingFails(t) == MaxRetry)
  }

  /** The sequence of index writes `esimport` makes on `data`. */
  predicate ImportTrace(data: seq<string>, indexOk: nat -> bool, t: seq<Call>)
  {
    Chained(data, indexOk, t) && Bounded(t) && Finished(data, t)
  }

  /** The sleeps of a run: before each write that follows a failed one, the
      loop sleeps BackoffUnit times the number of failures in a row. */
  function Backoffs(t: seq<Call>): seq<nat>
  {
    if t == [] then []
    else
      var p := Init(t);
      Backoffs(p) + (if p != [] && !Last(p).ok then [BackoffUnit * TrailingFails(p)] else [])
  }

  /** The final `totalLoad`: after each successful write whose ticker check
      finds a tick, it grows by the in-pass index of that write. */
  function Progress(t: seq<Call>, tickReady: nat -> bool): nat
  {
    if t == [] then 0
    else
      var p := Init(t);
      Progress(p, tickReady) + (if Last(t).ok && tickReady(|p|) then TrailingSuccesses(p) else 0)
  }

  /** How each summary of a run changes when one more write is appended. */
  lemma SnocFacts(t: seq<Call>, x: Call, tickReady: nat -> bool)
    ensures Init(t + [x]) == t && Last(t + [x]) == x
    ensures TrailingFails(t + [x]) == if x.ok then 0 else TrailingFails(t) + 1
    ensures TrailingSuccesses(t + [x]) == if x.ok then TrailingSuccesses(t) + 1 else 0
    ensures NextPos(t + [x]) == if x.ok then x.pos + 1 else x.pos
    ensures Backoffs(t + [x]) == Backoffs(t) + (if t != [] && !Last(t).ok then [BackoffUnit * TrailingFails(t)] else [])
    ensures Progress(t + [x], tickReady) == Progress(t, tickReady) + (if x.ok && tickReady(|t|) then TrailingSuccesses(t) else 0)
  {
    assert Init(t + [x]) == t;
  }

  lemma ChainedSnoc(data: seq<string>, indexOk: nat -> bool, t: seq<Call>, x: Call)
    requires Chained(data, indexOk, t)
    requires x.pos == NextPos(t) && x.pos < |data| && x.doc == data[x.pos] && x.ok == indexOk(|t|)
    ensures Chained(data, indexOk, t + [x])
  {
    var u := t + [x];
    forall c | 0 <= c < |u|
      ensures WriteFollows(data, indexOk, u, c)
    {
      assert c < |t| ==> WriteFollows(data, indexOk, t, c);
      assert u[..c] == t[..c] by { if c == |t| { assert u[..c] == t; } }
    }
  }

  lemma BoundedSnoc(t: seq<Call>, x: Call)
    requires Bounded(t) && TrailingFails(t) < MaxRetry
    ensures Bounded(t + [x])
  {
    var u := t + [x];
    forall c | 0 <= c < |u|
      ensures UnderLimit(u, c)
    {
      assert c < |t| ==> UnderLimit(t, c);
      assert u[..c] == t[..c] by { if c == |t| { assert u[..c] == t; } }
    }
  }

  /** One pass of `esimport` (its loop `for i, d := range tda`): the lines of
      `tda`, which is `data[off..]`, are written in order, each success resets
      `hasRetry` and may add the in-pass index to `totalLoad`, and the first
      failure bumps `hasRetry`, records the break point and ends the pass. */
  method Pass(data: seq<string>, indexOk: nat -> bool, tickReady: nat -> bool,
              tda: seq<string>, off: nat, calls0: seq<Call>, hasRetry0: int, totalLoad0: int)
    returns (calls: seq<Call>, hasRetry: int, totalLoad: int, retry: bool, breakPoint: int)
    requires off <= |data| && tda == data[off..] && off == NextPos(calls0)
    requires calls0 != [] ==> !Last(calls0).ok
    requires Chained(data, indexOk, calls0) && Bounded(calls0)
    requires hasRetry0 == TrailingFails(calls0) < MaxRetry
    requires totalLoad0 == Progress(calls0, tickReady)
    ensures Chained(data, indexOk, calls) && Bounded(calls)
    ensures hasRetry == TrailingFails(calls) <= MaxRetry
    ensures totalLoad == Progress(calls, tickReady)
    ensures Backoffs(calls) == Backoffs(calls0) + (if calls0 != [] && calls != calls0 then [BackoffUnit * hasRetry0] else [])
    ensures !retry ==> NextPos(calls) == |data| && hasRetry == (if calls == calls0 then hasRetry0 else 0)
    ensures retry ==> 0 <= breakPoint < |tda| && calls != [] && !Last(calls).ok && Last(calls).pos == off + breakPoint
    ensures retry && breakPoint == 0 ==> hasRetry == hasRetry0 + 1
  {
    calls, hasRetry, totalLoad, retry, breakPoint := calls0, hasRetry0, totalLoad0, false, 0;
    var i := 0;
    while i < |tda|
      invariant 0 <= i <= |tda|
      invariant off + i == NextPos(calls)
      invariant Chained(data, indexOk, calls) && Bounded(calls)
      invariant hasRetry == TrailingFails(calls) < MaxRetry
      invariant i == TrailingSuccesses(calls)
      invariant i == 0 ==> calls == calls0 && hasRetry == hasRetry0
      invariant i > 0 ==> calls != [] && Last(calls).ok && hasRetry == 0
      invariant Backoffs(calls) == Backoffs(calls0) + (if calls0 != [] && i > 0 then [BackoffUnit * hasRetry0] else [])
      invariant totalLoad == Progress(calls, tickReady)
    {
      var d := tda[i];
      var ok := indexOk(|calls|);
      var call := Call(off + i, d, ok);
      ChainedSnoc(data, indexOk, calls, call);
      BoundedSnoc(calls, call);
      SnocFacts(calls, call, tickReady);
      calls := calls + [call];
      if !ok {
        retry := true;
        hasRetry := hasRetry + 1;
        breakPoint := i;
        return;
      }
      hasRetry := 0;
      if tickReady(|calls| - 1) {
        totalLoad := totalLoad + i;
      }
      i := i + 1;
    }
  }

  /** `esimport`: the ordered lines are written one at a time; the first
      failure ends the pass, and unless MaxRetry failures in a row have
      happened the loop sleeps and starts a new pass at the failing line.
      The run always returns a nil error. Besides that error the method
      returns what the run did: its writes, its sleeps and its `totalLoad`. */
  method Import(data: seq<string>, indexOk: nat -> bool, tickReady: nat -> bool)
    returns (err: Option<string>, calls: seq<Call>, sleeps: seq<nat>, totalLoad: int)
    ensures err == None
    ensures ImportTrace(data, indexOk, calls)
    ensures sleeps == Backoffs(calls)
    ensures totalLoad == Progress(calls, tickReady)
  {
    var retry := false;
    var hasRetry := 0;
    var breakPoint := 0;
    totalLoad := 0;
    var tda := data[breakPoint..];
    var off := 0;  // tda is data[off..]; used to label each write with its position
    calls, sleeps := [], [];
    while hasRetry < MaxRetry
      invariant 0 <= hasRetry <= MaxRetry
      invariant off <= |data| && tda == data[off..]
      invariant Chained(data, indexOk, calls) && Bounded(calls)
      invariant hasRetry == TrailingFails(calls)
      invariant sleeps == Backoffs(calls)
      invariant totalLoad == Progress(calls, tickReady)
      invariant !retry ==> calls == [] && off == 0 && breakPoint == 0
      invariant retry ==> calls != [] && !Last(calls).ok && 0 <= breakPoint < |tda| && Last(calls).pos == off + breakPoint
      decreases |tda| - breakPoint + (if retry then 0 else 1), MaxRetry - hasRetry
    {
      if retry {
        sleeps := sleeps + [BackoffUnit * hasRetry];
        tda := tda[breakPoint..];
        off := off + breakPoint;
      }
      calls, hasRetry, totalLoad, retry, breakPoint := Pass(data, indexOk, tickReady, tda, off, calls, hasRetry, totalLoad);
      if !retry {
        break;
      }
    }
    err := None;
  }
}
