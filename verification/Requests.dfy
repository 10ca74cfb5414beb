/** The image list of a transfer request. */
module Requests {
  import opened Prelude
  import opened Dockerfile
  import opened Resolver
  import opened OnlineFetch

  const DEFAULT_PLATFORM := "linux/amd64"

  function ImageKey(img: Image): string {
    img.ref.registry + "/" + img.ref.repository + ":" + TagText(img.ref.tag)
  }

  function RequestFor(img: Image): ImageRequest {
    ImageRequest(img.ref.registry, img.ref.repository, img.ref.tag, PlatformOf(img, DEFAULT_PLATFORM))
  }

  /** The external images whose key did not occur earlier. */
  function FirstOfKey(images: seq<Image>): seq<Image> {
    if images == [] then []
    else
      var before, img := FirstOfKey(images[..|images| - 1]), images[|images| - 1];
      if !External(img) || ImageKey(img) in KeysOf(before) then before else before + [img]
  }

  function KeysOf(images: seq<Image>): set<string> {
    set img | img in images :: ImageKey(img)
  }

  function ExternalKeys(images: seq<Image>): set<string> {
    set img | img in images && External(img) :: ImageKey(img)
  }

  lemma OneMoreKey(images: seq<Image>, img: Image)
    ensures KeysOf(images + [img]) == KeysOf(images) + {ImageKey(img)}
    ensures ExternalKeys(images + [img]) ==
            if External(img) then ExternalKeys(images) + {ImageKey(img)} else ExternalKeys(images)
  {
    hide ImageKey, External;
  }

  function RequestsFor(images: seq<Image>): seq<ImageRequest> {
    seq(|images|, k requires 0 <= k < |images| => RequestFor(images[k]))
  }

  /** The request names every external image's key exactly once, and nothing else. */
  lemma {:induction false} KeysOnce(images: seq<Image>)
    ensures forall i, j :: 0 <= i < j < |FirstOfKey(images)| ==> ImageKey(FirstOfKey(images)[i]) != ImageKey(FirstOfKey(images)[j])
    ensures KeysOf(FirstOfKey(images)) == ExternalKeys(images)
    ensures forall img :: img in FirstOfKey(images) ==> img in images && External(img)
  {
    hide ImageKey, External;
    if images != [] {
      var n := |images| - 1;
      KeysOnce(images[..n]);
      assert images == images[..n] + [images[n]];
      var before := FirstOfKey(images[..n]);
      OneMoreKey(images[..n], images[n]);
      OneMoreKey(before, images[n]);
      assert forall i :: 0 <= i < |before| ==> before[i] in before && ImageKey(before[i]) in KeysOf(before);
    }
  }

  /** Of several images with one key the earliest is the one that is requested. */
  lemma {:induction false} EarliestIsKept(images: seq<Image>, i: nat)
    requires i < |FirstOfKey(images)|
    ensures exists k :: 0 <= k < |images| && images[k] == FirstOfKey(images)[i] &&
                        forall j :: 0 <= j < k && External(images[j]) ==> ImageKey(images[j]) != ImageKey(images[k])
  {
    hide ImageKey, External;
    var n := |images| - 1;
    var before := FirstOfKey(images[..n]);
    if i < |before| {
      EarliestIsKept(images[..n], i);
      var k :| 0 <= k < n && images[..n][k] == before[i] &&
               forall j :: 0 <= j < k && External(images[..n][j]) ==> ImageKey(images[..n][j]) != ImageKey(images[..n][k]);
      assert forall j :: 0 <= j <= k ==> images[..n][j] == images[j];
      assert images[k] == FirstOfKey(images)[i];
    } else {
      KeysOnce(images[..n]);
      forall j | 0 <= j < n && External(images[j]) ensures ImageKey(images[j]) != ImageKey(images[n]) {
        assert images[..n][j] == images[j];
        assert ImageKey(images[j]) in ExternalKeys(images[..n]);
      }
    }
  }

  ghost predicate AllRequested(images: seq<Image>) {
    forall img :: img in images && External(img) ==> RequestFor(img) in RequestsFor(FirstOfKey(images))
  }

  ghost predicate KeysAgree(images: seq<Image>) {
    forall a, b :: a in images && b in images && External(a) && External(b) && ImageKey(a) == ImageKey(b) ==>
      RequestFor(a) == RequestFor(b)
  }

  lemma RequestedKeysAgree(images: seq<Image>, a: Image, b: Image)
    requires AllRequested(images) && a in images && b in images && External(a) && External(b) && ImageKey(a) == ImageKey(b)
    ensures RequestFor(a) == RequestFor(b)
  {
    KeysOnce(images);
    hide ImageKey, External, RequestFor, FirstOfKey;
    var first := FirstOfKey(images);
    var i :| 0 <= i < |first| && RequestsFor(first)[i] == RequestFor(a);
    var j :| 0 <= j < |first| && RequestsFor(first)[j] == RequestFor(b);
    SameRequestSameKey(first[i], a);
    SameRequestSameKey(first[j], b);
  }

  lemma AgreedIsRequested(images: seq<Image>, img: Image)
    requires KeysAgree(images) && img in images && External(img)
    ensures RequestFor(img) in RequestsFor(FirstOfKey(images))
  {
    KeysOnce(images);
    hide ImageKey, External, RequestFor, FirstOfKey;
    var first := FirstOfKey(images);
    assert ImageKey(img) in ExternalKeys(images);
    var x :| x in first && ImageKey(x) == ImageKey(img);
    var i :| 0 <= i < |first| && first[i] == x;
    assert RequestsFor(first)[i] == RequestFor(img);
  }

  /** Every external image is requested, with its platform, exactly when images that share a key ask for the same:
      the key leaves the platform out, so a second platform of the same image is dropped. */
  lemma EveryImageIsRequestedIff(images: seq<Image>)
    ensures AllRequested(images) <==> KeysAgree(images)
  {
    hide ImageKey, External, RequestFor, FirstOfKey;
    if AllRequested(images) {
      forall a, b | a in images && b in images && External(a) && External(b) && ImageKey(a) == ImageKey(b)
        ensures RequestFor(a) == RequestFor(b)
      {
        RequestedKeysAgree(images, a, b);
      }
    }
    if KeysAgree(images) {
      forall img | img in images && External(img) ensures RequestFor(img) in RequestsFor(FirstOfKey(images)) {
        AgreedIsRequested(images, img);
      }
    }
  }

  lemma SameRequestSameKey(a: Image, b: Image)
    requires RequestFor(a) == RequestFor(b)
    ensures ImageKey(a) == ImageKey(b)
  {
  }

  /** The loop with its set of keys seen so far. */
  method CollectImages(images: seq<Image>) returns (r: seq<ImageRequest>)
    ensures r == RequestsFor(FirstOfKey(images))
  {
    hide ImageKey, External, RequestFor;
    r := [];
    var seenImages: set<string> := {};
    for k := 0 to |images|
      invariant r == RequestsFor(FirstOfKey(images[..k])) && seenImages == KeysOf(FirstOfKey(images[..k]))
    {
      assert images[..k + 1][..k] == images[..k];
      var img := images[k];
      if External(img) && ImageKey(img) !in seenImages {
        ghost var before := FirstOfKey(images[..k]);
        assert RequestsFor(before + [img]) == RequestsFor(before) + [RequestFor(img)];
        OneMoreKey(before, img);
        seenImages := seenImages + {ImageKey(img)};
        r := r + [RequestFor(img)];
      }
    }
    assert images[..|images|] == images;
  }
}
