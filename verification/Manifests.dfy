/** Image manifests as far as the code looks into them. */
module Manifests {
  import opened Prelude

  /** A config or layer descriptor; every field may be missing. */
  datatype Descriptor = Descriptor(digest: Option<string>, size: Option<int>, mediaType: Option<string>)

  /** A manifest without its `_buncker` extension; `other` stands for all fields the code never inspects. */
  datatype Body = Body(config: Option<Descriptor>, layers: seq<Descriptor>, mediaType: Option<string>, other: string)

  /** Config first, then the layers. */
  function Descriptors(m: Body): seq<Descriptor> {
    if m.config.Some? then [m.config.value] + m.layers else m.layers
  }

  /** The digests that are there, in order. */
  function DigestsOf(ds: seq<Descriptor>): seq<string> {
    if ds == [] then []
    else if ds[0].digest.Some? then [ds[0].digest.value] + DigestsOf(ds[1..])
    else DigestsOf(ds[1..])
  }

  function NeededDigests(m: Body): seq<string> {
    DigestsOf(Descriptors(m))
  }

  /** Every descriptor names its digest; otherwise the resolver's subscripting fails. */
  predicate Complete(m: Body) {
    forall k :: 0 <= k < |Descriptors(m)| ==> Descriptors(m)[k].digest.Some?
  }

  lemma {:induction false} DigestsOfMembers(ds: seq<Descriptor>, x: string)
    ensures x in DigestsOf(ds) <==> exists k :: 0 <= k < |ds| && ds[k].digest == Some(x)
  {
    if ds != [] {
      DigestsOfMembers(ds[1..], x);
      assert forall k :: 0 <= k < |ds| - 1 ==> ds[1..][k] == ds[k + 1];
      if k :| 0 <= k < |ds| && ds[k].digest == Some(x) {
        if k > 0 { assert ds[1..][k - 1].digest == Some(x); }
      }
    }
  }
}
