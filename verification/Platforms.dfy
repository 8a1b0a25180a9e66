/** Which platform an image has: what flattening resolves for descriptors without one, and what that decides. */
module Platforms {
  import opened Text
  import opened Bundles
  import opened Merging
  import opened BundleLaws

  /** A descriptor without a platform whose blob is there, is JSON and is no index, by its media type or its content. */
  predicate Unlabelled(store: set<Blob>, d: Descriptor) {
    && d.platform.None? && !Contains(d.media, "image.index")
    && d.blob in store && d.blob.Json? && d.blob.manifests == []
  }

  /** Its config, where it names one, can be read. */
  predicate ConfigReads(store: set<Blob>, d: Descriptor)
    requires d.blob.Json?
  {
    d.blob.config.Some? ==> d.blob.config.value in store && d.blob.config.value.Json?
  }

  /** Its config says for which system and which architecture it is. */
  predicate Says(d: Descriptor, os: string, arch: string) {
    && d.blob.Json? && d.blob.config.Some? && d.blob.config.value.Json?
    && d.blob.config.value.os == os && d.blob.config.value.arch == arch
  }

  lemma FlattenSingle(store: set<Blob>, d: Descriptor)
    ensures Flatten(store, [d]) == FlattenOne(store, d)
  {
    assert [d][1..] == [];
    if FlattenOne(store, d).Ok? {
      assert FlattenOne(store, d).value + [] == FlattenOne(store, d).value;
    }
  }

  /** A descriptor with a platform is a leaf whatever else is or is not there, its blob included. */
  lemma LabelledIsALeaf(store: set<Blob>, d: Descriptor)
    requires d.platform.Some?
    ensures Flatten(store, [d]) == Ok([d])
  {
    FlattenSingle(store, d);
  }

  /** One without takes system and architecture from its config, in that order and without a variant, when the config
      gives both; it stays as it is when one of them is empty or there is no config. */
  lemma UnlabelledTakesItsConfig(store: set<Blob>, d: Descriptor, os: string, arch: string)
    requires Unlabelled(store, d) && ConfigReads(store, d)
    ensures Says(d, os, arch) && os != "" && arch != "" ==>
              Flatten(store, [d]) == Ok([d.(platform := Some(Platform(os := os, arch := arch, variant := "")))])
    ensures Says(d, os, arch) && (os == "" || arch == "") ==> Flatten(store, [d]) == Ok([d])
    ensures d.blob.config.None? ==> Flatten(store, [d]) == Ok([d])
  {
    FlattenSingle(store, d);
    assert d.platform == None ==> d.(platform := None) == d;
  }

  /** What makes flattening fail on such a descriptor: a blob or config that is missing or not JSON. Of a descriptor
      whose media type says it is an index the blob must be there and JSON as well. */
  lemma UnreadableIsAnError(store: set<Blob>, d: Descriptor)
    requires d.platform.None?
    ensures d.blob !in store ==> Flatten(store, [d]) == Err(MissingBlob)
    ensures d.blob in store && d.blob.Bytes? ==> Flatten(store, [d]) == Err(NotJson)
    ensures Unlabelled(store, d) && !ConfigReads(store, d) ==>
              Flatten(store, [d]) == Err(if d.blob.config.value in store then NotJson else MissingBlob)
  {
    FlattenSingle(store, d);
  }

  /** An index, by its media type or because it has entries, stands for what its entries flatten to. */
  lemma IndexIsItsEntries(store: set<Blob>, d: Descriptor)
    requires d.platform.None? && d.blob in store && d.blob.Json?
    requires Contains(d.media, "image.index") || d.blob.manifests != []
    ensures Flatten(store, [d]) == Flatten(store, d.blob.manifests)
  {
    FlattenSingle(store, d);
  }

  /** As flattening resolves it. */
  function Resolved(d: Descriptor): Descriptor {
    if d.blob.Json? && d.blob.config.Some? && d.blob.config.value.Json? && d.blob.config.value.os != ""
      && d.blob.config.value.arch != ""
    then d.(platform := Some(Platform(os := d.blob.config.value.os, arch := d.blob.config.value.arch, variant := "")))
    else d
  }

  lemma LeafAmongLeaves(store: set<Blob>, before: seq<Descriptor>, d: Descriptor, after: seq<Descriptor>)
    requires Unlabelled(store, d) && ConfigReads(store, d) && Flatten(store, before + [d] + after).Ok?
    ensures Flatten(store, before).Ok? && Flatten(store, after).Ok?
    ensures Flatten(store, before + [d] + after)
            == Ok(Flatten(store, before).value + [Resolved(d)] + Flatten(store, after).value)
  {
    FlattenConcat(store, before + [d], after);
    FlattenConcat(store, before, [d]);
    FlattenSingle(store, d);
    assert d.platform == None ==> d.(platform := None) == d;
  }

  /** The Darwin half of a bundle takes such a descriptor, with that platform, if and only if its config says "darwin"
      and the host's architecture. */
  lemma CollectedExactly(layout: Layout, arch: string, before: seq<Descriptor>, d: Descriptor, after: seq<Descriptor>)
    requires layout.index.manifests == before + [d] + after && arch != ""
    requires Unlabelled(layout.store, d) && ConfigReads(layout.store, d) && Collect(layout, arch).Ok?
    ensures Resolved(d) in Collect(layout, arch).value <==> Says(d, "darwin", arch)
    ensures Says(d, "darwin", arch) ==> Resolved(d).platform == Some(Platform("darwin", arch, ""))
  {
    LeafAmongLeaves(layout.store, before, d, after);
    var leaves := Flatten(layout.store, layout.index.manifests).value;
    assert leaves[|Flatten(layout.store, before).value|] == Resolved(d);
    ForeignMeaning(arch, leaves);
  }

  /** No other leaf has the digest of `d`. */
  ghost predicate OnlyOne(others: seq<Descriptor>, d: Descriptor) {
    forall i :: 0 <= i < |others| ==> others[i].blob != d.blob
  }

  /** Every entry of a merged index is, annotations apart, a leaf of the source that is not for the host or a supplied
      descriptor. */
  lemma MergedComesFrom(store: set<Blob>, source: Index, darwin: seq<Descriptor>, tag: string, arch: string, i: nat)
    requires MergeIndices(store, source, darwin, tag, arch).Ok?
    requires i < |MergeIndices(store, source, darwin, tag, arch).value.manifests|
    ensures var leaves := Flatten(store, source.manifests).value;
            var out := MergeIndices(store, source, darwin, tag, arch).value.manifests;
            exists e :: (e in darwin || (e in leaves && !Native(arch, e)))
                        && out[i] == e.(annotations := out[i].annotations)
  {
    var leaves := Flatten(store, source.manifests).value;
    var out := MergeIndices(store, source, darwin, tag, arch).value.manifests;
    MergedIndexShape(store, source, darwin, tag, arch);
    ForeignMeaning(arch, leaves);
    var kept: seq<Descriptor>, added: seq<Descriptor> :|
      SameBut(out, kept + added) && Subsequence(kept, Foreign(arch, leaves)) && Subsequence(added, darwin);
    SubsequenceIn(kept, Foreign(arch, leaves));
    SubsequenceIn(added, darwin);
    var e := (kept + added)[i];
    assert e in kept || e in added;
  }

  lemma OnlyLeafOfItsDigest(first: seq<Descriptor>, d: Descriptor, rest: seq<Descriptor>, e: Descriptor)
    requires OnlyOne(first, d) && OnlyOne(rest, d) && e in first + [Resolved(d)] + rest && e.blob == d.blob
    ensures e == Resolved(d)
  {
  }

  /** The source half drops it if and only if the same holds: a leaf of the source whose digest neither another leaf nor
      the supplied image has is not in the merged index if and only if its config says "darwin" and the host's
      architecture; otherwise it is there with the platform its config gives. */
  lemma DroppedExactly(store: set<Blob>, source: Index, darwin: seq<Descriptor>, tag: string, arch: string,
                       before: seq<Descriptor>, d: Descriptor, after: seq<Descriptor>)
    requires source.manifests == before + [d] + after && arch != ""
    requires Unlabelled(store, d) && ConfigReads(store, d) && MergeIndices(store, source, darwin, tag, arch).Ok?
    requires Flatten(store, before).Ok? && OnlyOne(Flatten(store, before).value, d)
    requires Flatten(store, after).Ok? && OnlyOne(Flatten(store, after).value, d) && OnlyOne(darwin, d)
    ensures var out := MergeIndices(store, source, darwin, tag, arch).value.manifests;
            && (Present(out, d) <==> !Says(d, "darwin", arch))
            && forall i :: 0 <= i < |out| && out[i].blob == d.blob ==> out[i].platform == Resolved(d).platform
  {
    LeafAmongLeaves(store, before, d, after);
    var first, rest := Flatten(store, before).value, Flatten(store, after).value;
    var leaves := Flatten(store, source.manifests).value;
    var out := MergeIndices(store, source, darwin, tag, arch).value.manifests;
    assert leaves[|first|] == Resolved(d);
    forall i | 0 <= i < |out| && out[i].blob == d.blob
      ensures out[i].platform == Resolved(d).platform && !Native(arch, Resolved(d))
    {
      MergedComesFrom(store, source, darwin, tag, arch, i);
      var e :| (e in darwin || (e in leaves && !Native(arch, e))) && out[i] == e.(annotations := out[i].annotations);
      OnlyLeafOfItsDigest(first, d, rest, e);
    }
    KeptIsPresent(store, source, darwin, tag, arch, Resolved(d));
  }

  lemma KeptIsPresent(store: set<Blob>, source: Index, darwin: seq<Descriptor>, tag: string, arch: string,
                      e: Descriptor)
    requires MergeIndices(store, source, darwin, tag, arch).Ok? && e in Flatten(store, source.manifests).value
    ensures !Native(arch, e) ==> Present(MergeIndices(store, source, darwin, tag, arch).value.manifests, e)
  {
    MergedIndexShape(store, source, darwin, tag, arch);
    ForeignMeaning(arch, Flatten(store, source.manifests).value);
  }

  /** When bundling fails, and where its blobs come from: the supplied layout must flatten and have a leaf for the host,
      and the merge of the two must succeed; then all blobs of both are there. */
  lemma BundleFailsExactly(source: Layout, darwin: Layout, tag: string, arch: string)
    ensures var r := Bundle(source, darwin, tag, arch);
            var flat := Flatten(darwin.store, darwin.index.manifests);
            && (flat.Err? ==> r == Err(flat.error))
            && (flat.Ok? && (forall d :: d in flat.value ==> !Native(arch, d)) ==> r == Err(NoDarwin))
            && (flat.Ok? && (exists d :: d in flat.value && Native(arch, d)) ==>
                  var natives := Collect(darwin, arch).value;
                  && (forall d :: d in natives <==> d in flat.value && Native(arch, d))
                  && Subsequence(natives, flat.value)
                  && match MergeIndices(source.store, source.index, natives, tag, arch)
                     case Err(e) => r == Err(e)
                     case Ok(index) => r == Ok(Layout(source.store + darwin.store, index)))
  {
    var flat := Flatten(darwin.store, darwin.index.manifests);
    if flat.Ok? {
      ForeignMeaning(arch, flat.value);
      var natives := Natives(arch, flat.value);
      if natives != [] { assert natives[0] in natives; }
    }
  }
}
