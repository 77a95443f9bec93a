/** Embedding providers, dense and sparse: deterministic per text, but free to fail or to answer short. */
module Embedding {
  import opened Support
  import opened Chunking

  /** `Returns(n)` is a provider answering with n vectors, whatever it was asked. */
  datatype EmbedFault = Embeds | EmbedRaises | Returns(count: nat)

  predicate Answers(fault: EmbedFault, n: nat) {
    fault.Embeds? || (fault.Returns? && fault.count == n)
  }

  method EmbedDocuments<V>(texts: seq<Text>, embed: Text -> V, filler: V, fault: EmbedFault) returns (r: Option<seq<V>>)
    ensures fault.EmbedRaises? <==> r.None?
    ensures r.Some? ==> |r.value| == if fault.Returns? then fault.count else |texts|
    ensures r.Some? ==> forall i | 0 <= i < |texts| && i < |r.value| :: r.value[i] == embed(texts[i])
  {
    if fault.EmbedRaises? {
      return None;
    }
    var vectors: seq<V> := [];
    var n := if fault.Returns? then fault.count else |texts|;
    for i := 0 to n
      invariant |vectors| == i
      invariant forall k | 0 <= k < i && k < |texts| :: vectors[k] == embed(texts[k])
    {
      vectors := vectors + [if i < |texts| then embed(texts[i]) else filler];
    }
    return Some(vectors);
  }
}
