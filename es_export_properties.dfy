/** What the export hit-conversion loop of es/engie.go guarantees, stated
    about `MarshalledPrefix`, the postcondition `EsEngine.Export` is proved to meet. */
module EsExportProperties {
  import opened Wrappers
  import opened EsEngine

  /** The converted lines are determined by the hits and the conversion. */
  lemma MarshalledPrefixUnique<S>(hits: seq<S>, marshal: S -> Option<string>, r1: seq<string>, r2: seq<string>)
    requires MarshalledPrefix(hits, marshal, r1) && MarshalledPrefix(hits, marshal, r2)
    ensures r1 == r2
  {
  }

  /** When every hit converts, the result is every hit's line, in hit order. */
  lemma EveryHitConverts<S>(hits: seq<S>, marshal: S -> Option<string>, r: seq<string>)
    requires forall q :: 0 <= q < |hits| ==> marshal(hits[q]).Some?
    requires MarshalledPrefix(hits, marshal, r)
    ensures |r| == |hits|
    ensures forall q :: 0 <= q < |hits| ==> r[q] == marshal(hits[q]).value
  {
  }

  /** A hit that fails to convert ends the result, even when later hits
      would convert: the rest of the page is dropped without an error. */
  lemma FailedHitTruncates<S>(hits: seq<S>, marshal: S -> Option<string>, r: seq<string>, k: nat)
    requires MarshalledPrefix(hits, marshal, r)
    requires k < |hits| && marshal(hits[k]).None?
    ensures |r| <= k
  {
  }
}
