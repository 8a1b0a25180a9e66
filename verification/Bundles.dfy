/** Image indexes over a content-addressed store, and bundling (cmd/macker/main.go). A digest is injective, so a
    descriptor names its blob directly; the blobs a layout holds are a set, and references are well-founded. */
module Bundles {
  import opened Text

  datatype Platform = Platform(os: string, arch: string, variant: string)

  type Annotations = map<string, string>

  /** A blob as the JSON readers see it: an index, a manifest or a config, or bytes that are not JSON. */
  datatype Blob =
    | Json(manifests: seq<Descriptor>, config: Option<Blob>, layers: seq<Blob>, os: string, arch: string, rest: string)
    | Bytes(content: string)

  datatype Descriptor = Descriptor(media: string, blob: Blob, annotations: Annotations, platform: Option<Platform>)

  datatype Index = Index(schema: int, media: string, manifests: seq<Descriptor>)

  datatype Layout = Layout(store: set<Blob>, index: Index)

  datatype BundleError = MissingBlob | NotJson | BadSchema | Empty | NoDarwin

  const INDEX_MEDIA := "application/vnd.oci.image.index.v1+json"
  const REF_NAME := "org.opencontainers.image.ref.name"

  /** bundleDescriptorPlatform. */
  function PlatformOf(store: set<Blob>, d: Descriptor): Result<Option<Platform>, BundleError> {
    if d.platform.Some? then Ok(d.platform)
    else if d.blob !in store then Err(MissingBlob)
    else if d.blob.Bytes? then Err(NotJson)
    else if d.blob.manifests != [] || d.blob.config.None? then Ok(None)
    else if d.blob.config.value !in store then Err(MissingBlob)
    else if d.blob.config.value.Bytes? then Err(NotJson)
    else
      var config := d.blob.config.value;
      if config.os == "" || config.arch == "" then Ok(None) else Ok(Some(Platform(config.os, config.arch, "")))
  }

  /** bundleDescriptorIsIndex. */
  function IsIndex(store: set<Blob>, d: Descriptor): Result<bool, BundleError> {
    if Contains(d.media, "image.index") then Ok(true)
    else if d.blob !in store then Err(MissingBlob)
    else Ok(d.blob.Json? && d.blob.manifests != [])
  }

  function FlattenOne(store: set<Blob>, d: Descriptor): Result<seq<Descriptor>, BundleError>
    decreases d
  {
    if d.platform.Some? then Ok([d])
    else
      match IsIndex(store, d)
      case Err(e) => Err(e)
      case Ok(true) =>
        if d.blob !in store then Err(MissingBlob)
        else if d.blob.Bytes? then Err(NotJson)
        else Flatten(store, d.blob.manifests)
      case Ok(false) =>
        match PlatformOf(store, d)
        case Err(e) => Err(e)
        case Ok(platform) => Ok([d.(platform := platform)])
  }

  /** The leaves of the index tree, left to right. */
  function Flatten(store: set<Blob>, ds: seq<Descriptor>): Result<seq<Descriptor>, BundleError>
    decreases ds
  {
    if ds == [] then Ok([])
    else
      match FlattenOne(store, ds[0])
      case Err(e) => Err(e)
      case Ok(first) =>
        match Flatten(store, ds[1..])
        case Err(e) => Err(e)
        case Ok(rest) => Ok(first + rest)
  }

  function Then(a: Result<seq<Descriptor>, BundleError>, b: Result<seq<Descriptor>, BundleError>):
    Result<seq<Descriptor>, BundleError>
  {
    if a.Err? then a else if b.Err? then b else Ok(a.value + b.value)
  }

  lemma {:induction false} FlattenConcat(store: set<Blob>, a: seq<Descriptor>, b: seq<Descriptor>)
    ensures Flatten(store, a + b) == Then(Flatten(store, a), Flatten(store, b))
    decreases |a|
  {
    if a == [] {
      assert a + b == b;
      if Flatten(store, b).Ok? { assert [] + Flatten(store, b).value == Flatten(store, b).value; }
    } else {
      FlattenConcat(store, a[1..], b);
      assert (a + b)[1..] == a[1..] + b;
      if Flatten(store, a).Ok? && Flatten(store, b).Ok? {
        var first, rest := FlattenOne(store, a[0]).value, Flatten(store, a[1..]).value;
        assert first + rest + Flatten(store, b).value == first + (rest + Flatten(store, b).value);
      }
    }
  }

  /** flattenBundleDescriptors. */
  method FlattenDescriptors(store: set<Blob>, descriptors: seq<Descriptor>)
      returns (r: Result<seq<Descriptor>, BundleError>)
    ensures r == Flatten(store, descriptors)
    decreases descriptors
  {
    var result: seq<Descriptor> := [];
    var i := 0;
    while i < |descriptors|
      invariant 0 <= i <= |descriptors|
      invariant Flatten(store, descriptors[..i]) == Ok(result)
    {
      var d := descriptors[i];
      FlattenStep(store, descriptors, i);
      i := i + 1;
      if d.platform.Some? {
        result := result + [d];
        continue;
      }
      var isIndex := IsIndex(store, d);
      if isIndex.Err? { return Err(isIndex.error); }
      if isIndex.value {
        if d.blob !in store { return Err(MissingBlob); }
        if d.blob.Bytes? { return Err(NotJson); }
        var nested := FlattenDescriptors(store, d.blob.manifests);
        if nested.Err? { return nested; }
        result := result + nested.value;
        continue;
      }
      var platform := PlatformOf(store, d);
      if platform.Err? { return Err(platform.error); }
      result := result + [d.(platform := platform.value)];
    }
    assert descriptors[..i] == descriptors;
    r := Ok(result);
  }

  lemma FlattenStep(store: set<Blob>, ds: seq<Descriptor>, i: nat)
    requires i < |ds| && Flatten(store, ds[..i]).Ok?
    ensures FlattenOne(store, ds[i]).Err? ==> Flatten(store, ds) == Err(FlattenOne(store, ds[i]).error)
    ensures FlattenOne(store, ds[i]).Ok? ==>
              Flatten(store, ds[..i + 1]) == Ok(Flatten(store, ds[..i]).value + FlattenOne(store, ds[i]).value)
  {
    var one := [ds[i]];
    assert one[1..] == [];
    FlattenConcat(store, ds[..i], one);
    assert ds[..i + 1] == ds[..i] + one;
    assert Flatten(store, one) == if FlattenOne(store, ds[i]).Err? then Err(FlattenOne(store, ds[i]).error)
      else Ok(FlattenOne(store, ds[i]).value) by {
      if FlattenOne(store, ds[i]).Ok? {
        assert FlattenOne(store, ds[i]).value + [] == FlattenOne(store, ds[i]).value;
      }
    }
    FlattenConcat(store, ds[..i + 1], ds[i + 1..]);
    assert ds[..i + 1] + ds[i + 1..] == ds;
  }

  /** A descriptor flattening leaves alone. */
  ghost predicate Leaf(store: set<Blob>, d: Descriptor) {
    FlattenOne(store, d) == Ok([d])
  }

  ghost predicate Leaves(store: set<Blob>, ds: seq<Descriptor>) {
    forall i :: 0 <= i < |ds| ==> Leaf(store, ds[i])
  }

  lemma {:induction false} FlattenOneGivesLeaves(store: set<Blob>, d: Descriptor)
    requires FlattenOne(store, d).Ok?
    ensures Leaves(store, FlattenOne(store, d).value)
    decreases d
  {
    if d.platform.None? && IsIndex(store, d).value {
      FlattenGivesLeaves(store, d.blob.manifests);
    }
  }

  lemma {:induction false} FlattenGivesLeaves(store: set<Blob>, ds: seq<Descriptor>)
    requires Flatten(store, ds).Ok?
    ensures Leaves(store, Flatten(store, ds).value)
    decreases ds
  {
    if ds != [] {
      FlattenOneGivesLeaves(store, ds[0]);
      FlattenGivesLeaves(store, ds[1..]);
    }
  }

  lemma {:induction false} LeavesStay(store: set<Blob>, ds: seq<Descriptor>)
    requires Leaves(store, ds)
    ensures Flatten(store, ds) == Ok(ds)
    decreases |ds|
  {
    if ds != [] {
      assert Leaf(store, ds[0]);
      assert forall i :: 0 <= i < |ds[1..]| ==> ds[1..][i] == ds[i + 1];
      LeavesStay(store, ds[1..]);
      assert [ds[0]] + ds[1..] == ds;
    }
  }

  /** Flattening what has been flattened changes nothing. */
  lemma FlattenIsIdempotent(store: set<Blob>, ds: seq<Descriptor>)
    requires Flatten(store, ds).Ok?
    ensures Flatten(store, Flatten(store, ds).value) == Flatten(store, ds)
  {
    FlattenGivesLeaves(store, ds);
    LeavesStay(store, Flatten(store, ds).value);
  }

  /** An index entry stands for its own entries, in its place: the order of leaves is the order of the tree. */
  lemma IndexStandsForItsEntries(store: set<Blob>, before: seq<Descriptor>, d: Descriptor, after: seq<Descriptor>)
    requires d.platform.None? && IsIndex(store, d) == Ok(true) && d.blob in store && d.blob.Json?
    ensures Flatten(store, before + [d] + after) == Flatten(store, before + d.blob.manifests + after)
  {
    FlattenConcat(store, before + [d], after);
    FlattenConcat(store, before, [d]);
    FlattenConcat(store, before + d.blob.manifests, after);
    FlattenConcat(store, before, d.blob.manifests);
    assert [d][1..] == [];
    if Flatten(store, d.blob.manifests).Ok? {
      assert Flatten(store, d.blob.manifests).value + [] == Flatten(store, d.blob.manifests).value;
    }
  }

  /** A measure under which a blob is larger than all it refers to. */
  ghost function Weight(b: Blob): nat
    decreases b
  {
    match b
    case Bytes(_) => 0
    case Json(manifests, config, _, _, _, _) =>
      1 + WeightAll(manifests) + if config.Some? then Weight(config.value) else 0
  }

  ghost function WeightAll(ds: seq<Descriptor>): nat
    decreases ds
  {
    if ds == [] then 0 else 1 + Weight(ds[0].blob) + WeightAll(ds[1..])
  }

  lemma {:induction false} FlattenOneIgnoresHeavier(store: set<Blob>, heavy: Blob, d: Descriptor)
    requires Weight(d.blob) < Weight(heavy)
    ensures FlattenOne(store + {heavy}, d) == FlattenOne(store, d)
    decreases d
  {
    if d.blob.Json? {
      FlattenIgnoresHeavier(store, heavy, d.blob.manifests);
    }
  }

  lemma {:induction false} FlattenIgnoresHeavier(store: set<Blob>, heavy: Blob, ds: seq<Descriptor>)
    requires WeightAll(ds) < Weight(heavy)
    ensures Flatten(store + {heavy}, ds) == Flatten(store, ds)
    decreases ds
  {
    if ds != [] {
      FlattenOneIgnoresHeavier(store, heavy, ds[0]);
      FlattenIgnoresHeavier(store, heavy, ds[1..]);
    }
  }

  /** The blob an index is stored as. */
  function IndexBlob(index: Index): Blob {
    Json(index.manifests, None, [], "", "", index.media)
  }

  /** bundleSourceForPush: an index of several entries goes inside one tagged entry of a new root. */
  function WrapForPush(layout: Layout, tag: string): Layout {
    if |layout.index.manifests| <= 1 then layout
    else
      var inner := IndexBlob(layout.index);
      Layout(layout.store + {inner},
             Index(2, INDEX_MEDIA, [Descriptor(INDEX_MEDIA, inner, map[REF_NAME := tag], None)]))
  }

  /** The push wrapper changes no leaf: the wrapped layout flattens to what the plain one does, errors included. A
      layout of at most one entry is left as it is; around any other goes a root of one entry that bears the tag, and
      nothing else, and points to the whole index as one more blob. */
  lemma WrapKeepsLeaves(layout: Layout, tag: string)
    ensures var w := WrapForPush(layout, tag);
            && Flatten(w.store, w.index.manifests) == Flatten(layout.store, layout.index.manifests)
            && (|layout.index.manifests| <= 1 ==> w == layout)
            && (|layout.index.manifests| > 1 ==>
                  && w.index.schema == 2 && w.index.media == "application/vnd.oci.image.index.v1+json"
                  && |w.index.manifests| == 1
                  && var d := w.index.manifests[0];
                     && d.media == w.index.media && d.platform.None?
                     && d.annotations == map["org.opencontainers.image.ref.name" := tag]
                     && d.blob.Json? && d.blob.manifests == layout.index.manifests
                     && w.store == layout.store + {d.blob})
  {
    if |layout.index.manifests| > 1 {
      var inner := IndexBlob(layout.index);
      var wrapped := WrapForPush(layout, tag);
      var d := wrapped.index.manifests[0];
      assert Contains(INDEX_MEDIA, "image.index") by {
        assert "image.index" <= INDEX_MEDIA[20..];
      }
      assert IsIndex(wrapped.store, d) == Ok(true);
      IndexStandsForItsEntries(wrapped.store, [], d, []);
      assert [] + [d] + [] == wrapped.index.manifests;
      assert [] + inner.manifests + [] == layout.index.manifests;
      FlattenIgnoresHeavier(layout.store, inner, layout.index.manifests);
    }
  }
}
