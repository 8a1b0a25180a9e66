/** Laws of bundling: doing it twice, loading what it made, and the blobs it keeps. */
module BundleLaws {
  import opened Text
  import opened Bundles
  import opened Merging

  /** Some supplied Darwin descriptor has a digest that no retained source leaf has. */
  ghost predicate SomeSurvives(leaves: seq<Descriptor>, darwin: seq<Descriptor>, arch: string) {
    exists i :: 0 <= i < |darwin| && !Present(Foreign(arch, leaves), darwin[i])
  }

  ghost predicate AllNative(ds: seq<Descriptor>, arch: string) {
    forall i :: 0 <= i < |ds| ==> Native(arch, ds[i])
  }

  ghost predicate NoneNative(ds: seq<Descriptor>, arch: string) {
    forall i :: 0 <= i < |ds| ==> !Native(arch, ds[i])
  }

  lemma {:induction false} NativesOfNone(ds: seq<Descriptor>, arch: string)
    requires NoneNative(ds, arch)
    ensures Natives(arch, ds) == []
  {
    if ds != [] {
      NativesOfNone(ds[1..], arch);
    }
  }

  lemma {:induction false} NativesOfAll(ds: seq<Descriptor>, arch: string)
    requires AllNative(ds, arch)
    ensures Natives(arch, ds) == ds
  {
    if ds != [] {
      assert forall i :: 0 <= i < |ds[1..]| ==> ds[1..][i] == ds[i + 1];
      NativesOfAll(ds[1..], arch);
      assert [ds[0]] + ds[1..] == ds;
    }
  }

  /** Digests already distinct and new are appended one and all. */
  lemma {:induction false} AddNewOfFresh(base: seq<Descriptor>, ds: seq<Descriptor>)
    requires Distinct(ds) && forall i :: 0 <= i < |ds| ==> !Present(base, ds[i])
    ensures AddNew(base, ds) == base + ds
    decreases |ds|
  {
    if ds == [] {
      assert base + ds == base;
    } else {
      var next := base + [ds[0]];
      assert forall i :: 0 <= i < |ds[1..]| ==> ds[1..][i] == ds[i + 1];
      forall i | 0 <= i < |ds[1..]|
        ensures !Present(next, ds[1..][i])
      {
        assert !Present(base, ds[i + 1]) && ds[0].blob != ds[i + 1].blob;
      }
      AddNewOfFresh(next, ds[1..]);
      assert next + ds[1..] == base + ds;
    }
  }

  /** Retagging what has been retagged, behind entries that have not, is retagging once. */
  lemma RetagTwice(kept: seq<Descriptor>, added: seq<Descriptor>, tag: string)
    requires kept + added != []
    ensures Retag(kept + Retag(kept + added, tag)[|kept|..], tag) == Retag(kept + added, tag)
  {
    var once := Retag(kept + added, tag);
    var again := kept + once[|kept|..];
    var twice := Retag(again, tag);
    forall i | 0 <= i < |once|
      ensures twice[i] == once[i]
    {
      var d := (kept + added)[i];
      if i < |kept| {
        assert again[i] == d;
      } else {
        assert again[i] == once[i];
        assert REF_NAME !in d.annotations - {REF_NAME};
        assert (d.annotations - {REF_NAME}) - {REF_NAME} == d.annotations - {REF_NAME};
        assert (d.annotations - {REF_NAME})[REF_NAME := tag] - {REF_NAME} == d.annotations - {REF_NAME};
      }
    }
  }

  lemma {:induction false} FlattenOneInLarger(store: set<Blob>, larger: set<Blob>, d: Descriptor)
    requires store <= larger && FlattenOne(store, d).Ok?
    ensures FlattenOne(larger, d) == FlattenOne(store, d)
    decreases d
  {
    if d.platform.None? && IsIndex(store, d).value {
      FlattenInLarger(store, larger, d.blob.manifests);
    }
  }

  lemma {:induction false} FlattenInLarger(store: set<Blob>, larger: set<Blob>, ds: seq<Descriptor>)
    requires store <= larger && Flatten(store, ds).Ok?
    ensures Flatten(larger, ds) == Flatten(store, ds)
    decreases ds
  {
    if ds != [] {
      FlattenOneInLarger(store, larger, ds[0]);
      FlattenInLarger(store, larger, ds[1..]);
    }
  }

  lemma LeafWhateverItsAnnotations(store: set<Blob>, d: Descriptor, annotations: Annotations)
    requires Leaf(store, d)
    ensures Leaf(store, d.(annotations := annotations))
  {
    if d.platform.None? {
      if IsIndex(store, d) == Ok(true) {
        NestedIsLighter(store, d);
      }
    }
  }

  lemma {:induction false} SubsequenceIn(a: seq<Descriptor>, b: seq<Descriptor>)
    requires Subsequence(a, b)
    ensures forall d :: d in a ==> d in b
    decreases |b|
  {
    if b != [] {
      if Subsequence(a, b[1..]) {
        SubsequenceIn(a, b[1..]);
      } else {
        SubsequenceIn(a[1..], b[1..]);
        assert forall d :: d in a ==> d == a[0] || d in a[1..];
      }
    }
  }

  /** The two halves of a merge: what is kept of the source and what is added of the Darwin image. */
  ghost predicate Halves(leaves: seq<Descriptor>, darwin: seq<Descriptor>, arch: string,
                         kept: seq<Descriptor>, added: seq<Descriptor>) {
    && kept == AddNew([], Foreign(arch, leaves)) && MergedEntries(leaves, darwin, arch) == kept + added
    && Distinct(kept + added) && NoneNative(kept, arch) && AllNative(added, arch)
    && (forall i :: 0 <= i < |added| ==> added[i] in darwin)
    && (forall i :: 0 <= i < |kept| ==> kept[i] in leaves)
  }

  lemma MergeHalves(leaves: seq<Descriptor>, darwin: seq<Descriptor>, arch: string)
    returns (kept: seq<Descriptor>, added: seq<Descriptor>)
    requires AllNative(darwin, arch)
    ensures Halves(leaves, darwin, arch, kept, added)
    ensures added != [] <==> SomeSurvives(leaves, darwin, arch)
  {
    kept := AddNew([], Foreign(arch, leaves));
    KeptIsForeign(leaves, arch);
    var entries := AddNew(kept, darwin);
    AddNewAppends(kept, darwin);
    added := entries[|kept|..];
    assert kept + added == entries;
    SubsequenceIn(added, darwin);
    forall i | 0 <= i < |added|
      ensures added[i] in darwin && Native(arch, added[i])
    {
      assert added[i] in added;
    }
    SurvivorsAreAdded(leaves, darwin, arch, kept, added);
  }

  lemma KeptIsForeign(leaves: seq<Descriptor>, arch: string)
    ensures var kept := AddNew([], Foreign(arch, leaves));
            Distinct(kept) && NoneNative(kept, arch) && forall i :: 0 <= i < |kept| ==> kept[i] in leaves
  {
    var kept := AddNew([], Foreign(arch, leaves));
    AddNewAppends([], Foreign(arch, leaves));
    assert kept[0..] == kept;
    ForeignMeaning(arch, leaves);
    SubsequenceIn(kept, Foreign(arch, leaves));
    forall i | 0 <= i < |kept|
      ensures kept[i] in leaves && !Native(arch, kept[i])
    {
      assert kept[i] in kept;
    }
  }

  lemma KeptPresence(leaves: seq<Descriptor>, arch: string, d: Descriptor)
    ensures Present(AddNew([], Foreign(arch, leaves)), d) <==> Present(Foreign(arch, leaves), d)
  {
    var foreign := Foreign(arch, leaves);
    var kept := AddNew([], foreign);
    AddNewAppends([], foreign);
    assert kept[0..] == kept;
    SubsequenceIn(kept, foreign);
    if Present(kept, d) {
      var i :| 0 <= i < |kept| && kept[i].blob == d.blob;
      assert kept[i] in foreign;
      var j :| 0 <= j < |foreign| && foreign[j] == kept[i];
      assert foreign[j].blob == d.blob;
    }
    if Present(foreign, d) {
      var i :| 0 <= i < |foreign| && foreign[i].blob == d.blob;
      assert Present(kept, foreign[i]);
      var j :| 0 <= j < |kept| && kept[j].blob == foreign[i].blob;
      assert kept[j].blob == d.blob;
    }
  }

  lemma SurvivorsAreAdded(leaves: seq<Descriptor>, darwin: seq<Descriptor>, arch: string,
                          kept: seq<Descriptor>, added: seq<Descriptor>)
    requires kept == AddNew([], Foreign(arch, leaves)) && AddNew(kept, darwin) == kept + added && Distinct(kept)
    ensures added != [] <==> SomeSurvives(leaves, darwin, arch)
  {
    AddNewAppends(kept, darwin);
    if SomeSurvives(leaves, darwin, arch) {
      var i :| 0 <= i < |darwin| && !Present(Foreign(arch, leaves), darwin[i]);
      KeptPresence(leaves, arch, darwin[i]);
      assert Present(kept + added, darwin[i]);
    } else {
      forall i | 0 <= i < |darwin|
        ensures Present(kept, darwin[i])
      {
        KeptPresence(leaves, arch, darwin[i]);
      }
      AddNewOfPresent(kept, darwin);
      assert kept + added == kept;
    }
  }

  lemma {:induction false} AddNewOfPresent(base: seq<Descriptor>, ds: seq<Descriptor>)
    requires forall i :: 0 <= i < |ds| ==> Present(base, ds[i])
    ensures AddNew(base, ds) == base
    decreases |ds|
  {
    if ds != [] {
      assert forall i :: 0 <= i < |ds[1..]| ==> ds[1..][i] == ds[i + 1];
      AddNewOfPresent(base, ds[1..]);
    }
  }

  ghost predicate LeavesIn(store: set<Blob>, ds: seq<Descriptor>) {
    forall d :: d in ds ==> Leaf(store, d)
  }

  lemma BundledEntriesAreLeaves(store: set<Blob>, kept: seq<Descriptor>, added: seq<Descriptor>, tag: string)
    requires LeavesIn(store, kept) && LeavesIn(store, added)
    ensures Flatten(store, Retag(kept + added, tag)) == Ok(Retag(kept + added, tag))
  {
    var out := Retag(kept + added, tag);
    forall i | 0 <= i < |out|
      ensures Leaf(store, out[i])
    {
      var d := (kept + added)[i];
      assert d in kept || d in added;
      LeafWhateverItsAnnotations(store, d, out[i].annotations);
    }
    LeavesStay(store, out);
  }

  lemma LeavesInLarger(store: set<Blob>, larger: set<Blob>, index: seq<Descriptor>, ds: seq<Descriptor>)
    requires store <= larger && Flatten(store, index).Ok?
    requires forall i :: 0 <= i < |ds| ==> ds[i] in Flatten(store, index).value
    ensures LeavesIn(larger, ds)
  {
    FlattenGivesLeaves(store, index);
    var leaves := Flatten(store, index).value;
    forall d | d in ds
      ensures Leaf(larger, d)
    {
      var i :| 0 <= i < |leaves| && leaves[i] == d;
      assert Leaf(store, leaves[i]);
      FlattenOneInLarger(store, larger, d);
    }
  }

  lemma RetaggedNatives(kept: seq<Descriptor>, added: seq<Descriptor>, tag: string, arch: string)
    requires NoneNative(kept, arch) && AllNative(added, arch)
    ensures Natives(arch, Retag(kept + added, tag)) == Retag(kept + added, tag)[|kept|..]
  {
    var out := Retag(kept + added, tag);
    var head, tail := out[..|kept|], out[|kept|..];
    assert out == head + tail;
    assert forall i :: 0 <= i < |head| ==> head[i].platform == kept[i].platform;
    assert forall i :: 0 <= i < |tail| ==> tail[i].platform == added[i].platform;
    NativesConcat(arch, head, tail);
    NativesOfNone(head, arch);
    NativesOfAll(tail, arch);
  }

  lemma DistinctParts(kept: seq<Descriptor>, added: seq<Descriptor>)
    requires Distinct(kept + added)
    ensures Distinct(added) && forall i, j :: 0 <= i < |kept| && 0 <= j < |added| ==> kept[i].blob != added[j].blob
  {
    var all := kept + added;
    assert forall i :: 0 <= i < |kept| ==> all[i] == kept[i];
    forall j | 0 <= j < |added|
      ensures all[|kept| + j] == added[j]
    {
    }
    forall i, j | 0 <= i < j < |added|
      ensures added[i].blob != added[j].blob
    {
      assert all[|kept| + i].blob != all[|kept| + j].blob;
    }
    forall i, j | 0 <= i < |kept| && 0 <= j < |added|
      ensures kept[i].blob != added[j].blob
    {
      assert all[i].blob != all[|kept| + j].blob;
    }
  }

  lemma ReaddingSame(kept: seq<Descriptor>, added: seq<Descriptor>, tail: seq<Descriptor>)
    requires Distinct(kept + added)
    requires |tail| == |added| && forall i :: 0 <= i < |tail| ==> tail[i].blob == added[i].blob
    ensures AddNew(kept, tail) == kept + tail
  {
    DistinctParts(kept, added);
    AddNewOfFresh(kept, tail);
  }

  lemma ReaddingRetagged(kept: seq<Descriptor>, added: seq<Descriptor>, out: seq<Descriptor>)
    requires Distinct(kept + added) && SameBut(out, kept + added)
    ensures AddNew(kept, out[|kept|..]) == kept + out[|kept|..]
  {
    var tail := out[|kept|..];
    forall i | 0 <= i < |tail|
      ensures tail[i].blob == added[i].blob
    {
      SameBlob(kept, added, out, i);
    }
    ReaddingSame(kept, added, tail);
  }

  lemma SameBlob(kept: seq<Descriptor>, added: seq<Descriptor>, out: seq<Descriptor>, i: nat)
    requires SameBut(out, kept + added) && i < |added|
    ensures out[|kept| + i].blob == added[i].blob
  {
    assert (kept + added)[|kept| + i] == added[i];
  }

  lemma CollectIsNative(layout: Layout, arch: string)
    requires Collect(layout, arch).Ok?
    ensures AllNative(Collect(layout, arch).value, arch)
    ensures forall d :: d in Collect(layout, arch).value ==> d in Flatten(layout.store, layout.index.manifests).value
  {
    var leaves := Flatten(layout.store, layout.index.manifests).value;
    ForeignMeaning(arch, leaves);
    assert forall i :: 0 <= i < |Natives(arch, leaves)| ==> Natives(arch, leaves)[i] in Natives(arch, leaves);
  }

  /** What a bundle is made of. */
  lemma BundleParts(source: Layout, darwin: Layout, tag: string, arch: string)
    returns (kept: seq<Descriptor>, added: seq<Descriptor>)
    requires Bundle(source, darwin, tag, arch).Ok?
    ensures Collect(darwin, arch).Ok? && Flatten(source.store, source.index.manifests).Ok?
    ensures var b := Bundle(source, darwin, tag, arch).value;
            var leaves := Flatten(source.store, source.index.manifests).value;
            && Halves(leaves, Collect(darwin, arch).value, arch, kept, added) && kept + added != []
            && (added != [] <==> SomeSurvives(leaves, Collect(darwin, arch).value, arch))
            && b.index.manifests == Retag(kept + added, tag) && b.store == source.store + darwin.store
            && LeavesIn(b.store, kept) && LeavesIn(b.store, added)
  {
    var leaves := Flatten(source.store, source.index.manifests).value;
    var ds := Collect(darwin, arch).value;
    CollectIsNative(darwin, arch);
    kept, added := MergeHalves(leaves, ds, arch);
    var store := source.store + darwin.store;
    LeavesInLarger(source.store, store, source.index.manifests, kept);
    assert forall i :: 0 <= i < |added| ==> added[i] in ds;
    LeavesInLarger(darwin.store, store, darwin.index.manifests, added);
  }

  /** Bundling again, into the layout the first bundling left, changes nothing exactly when some Darwin descriptor's
      digest was its own; otherwise the first result holds no Darwin entry and a second bundling is refused. */
  lemma RebundlingIsIdempotent(source: Layout, darwin: Layout, tag: string, arch: string)
    requires Bundle(source, darwin, tag, arch).Ok?
    ensures Collect(darwin, arch).Ok? && Flatten(source.store, source.index.manifests).Ok?
    ensures var b := Bundle(source, darwin, tag, arch).value;
            var leaves := Flatten(source.store, source.index.manifests).value;
            var ds := Collect(darwin, arch).value;
            && (Bundle(source, b, tag, arch) == Ok(b) <==> SomeSurvives(leaves, ds, arch))
            && (!SomeSurvives(leaves, ds, arch) ==> Bundle(source, b, tag, arch) == Err(NoDarwin))
  {
    var b := Bundle(source, darwin, tag, arch).value;
    var kept, added := BundleParts(source, darwin, tag, arch);
    BundledEntriesAreLeaves(b.store, kept, added, tag);
    RetaggedNatives(kept, added, tag, arch);
    assert Collect(b, arch) == Ok(b.index.manifests[|kept|..]);
    if added != [] {
      RetagShape(kept + added, [], tag);
      ReaddingRetagged(kept, added, b.index.manifests);
      RetagTwice(kept, added, tag);
      assert source.store + b.store == b.store;
    }
  }

  /** The last position, or -1, of a native descriptor; and of one tagged `tag`. */
  function LastNative(ds: seq<Descriptor>, arch: string): (i: int)
    ensures -1 <= i < |ds| && (i >= 0 ==> Native(arch, ds[i]))
    ensures forall j :: i < j < |ds| ==> !Native(arch, ds[j])
  {
    if ds == [] then -1
    else if Native(arch, ds[|ds| - 1]) then |ds| - 1
    else LastNative(ds[..|ds| - 1], arch)
  }

  predicate Tagged(d: Descriptor, tag: string) {
    tag != "" && REF_NAME in d.annotations && d.annotations[REF_NAME] == tag
  }

  function LastTagged(ds: seq<Descriptor>, tag: string): (i: int)
    ensures -1 <= i < |ds| && (i >= 0 ==> Tagged(ds[i], tag))
    ensures forall j :: i < j < |ds| ==> !Tagged(ds[j], tag)
  {
    if ds == [] then -1
    else if Tagged(ds[|ds| - 1], tag) then |ds| - 1
    else LastTagged(ds[..|ds| - 1], tag)
  }

  datatype LoadError = NoManifests | NotFound

  /** Which entry loadImage reads: the last native one, else the last with the tag, else, without a tag, the first. */
  function Selection(ds: seq<Descriptor>, tag: string, arch: string): (r: Result<nat, LoadError>)
    ensures r.Ok? ==> r.value < |ds|
  {
    if ds == [] then Err(NoManifests)
    else if LastNative(ds, arch) >= 0 then Ok(LastNative(ds, arch))
    else if LastTagged(ds, tag) >= 0 then Ok(LastTagged(ds, tag))
    else if tag != "" then Err(NotFound)
    else Ok(0)
  }

  /** For the host's own Darwin, in so many words. */
  predicate ForHost(d: Descriptor, arch: string) {
    d.platform.Some? && d.platform.value.os == "darwin" && d.platform.value.arch == arch
  }

  predicate Bears(d: Descriptor, tag: string) {
    && "org.opencontainers.image.ref.name" in d.annotations
    && d.annotations["org.opencontainers.image.ref.name"] == tag
  }

  /** `i` is the last position with the property. */
  ghost predicate LastWhere(ds: seq<Descriptor>, p: Descriptor -> bool, i: nat) {
    i < |ds| && p(ds[i]) && forall j :: i < j < |ds| ==> !p(ds[j])
  }

  /** The last entry for the host is read, whatever the tag. If there is none, the last entry that bears the tag;
      without one a tag is not found, and when none was asked for the first entry is read. */
  lemma SelectionExactly(ds: seq<Descriptor>, tag: string, arch: string, i: nat)
    ensures var r := Selection(ds, tag, arch);
            && (ds == [] ==> r == Err(NoManifests))
            && (LastWhere(ds, d => ForHost(d, arch), i) ==> r == Ok(i))
            && ((forall d :: d in ds ==> !ForHost(d, arch)) ==>
                  && (tag != "" && LastWhere(ds, d => Bears(d, tag), i) ==> r == Ok(i))
                  && (tag != "" && ds != [] && (forall d :: d in ds ==> !Bears(d, tag)) ==> r == Err(NotFound))
                  && (tag == "" && ds != [] ==> r == Ok(0)))
  {
    var native, tagged := LastNative(ds, arch), LastTagged(ds, tag);
    assert native >= 0 ==> ds[native] in ds && ForHost(ds[native], arch);
    assert tagged >= 0 ==> ds[tagged] in ds && Bears(ds[tagged], tag);
    assert forall d :: Native(arch, d) <==> ForHost(d, arch);
    assert forall d :: tag != "" ==> (Tagged(d, tag) <==> Bears(d, tag));
  }

  /** The scan of loadImage. */
  method SelectManifest(ds: seq<Descriptor>, tag: string, arch: string) returns (r: Result<nat, LoadError>)
    ensures r == Selection(ds, tag, arch)
  {
    if ds == [] { return Err(NoManifests); }
    var tagSelected, nativeSelected := -1, -1;
    var i := 0;
    while i < |ds|
      invariant 0 <= i <= |ds|
      invariant nativeSelected == LastNative(ds[..i], arch)
      invariant tagSelected == LastTagged(ds[..i], tag)
    {
      assert ds[..i + 1][..i] == ds[..i];
      if tag != "" && REF_NAME in ds[i].annotations && ds[i].annotations[REF_NAME] == tag { tagSelected := i; }
      if ds[i].platform.Some? && ds[i].platform.value.os == "darwin" && ds[i].platform.value.arch == arch {
        nativeSelected := i;
      }
      i := i + 1;
    }
    assert ds[..i] == ds;
    if nativeSelected != -1 { return Ok(nativeSelected); }
    if tagSelected != -1 { return Ok(tagSelected); }
    if tag != "" { return Err(NotFound); }
    r := Ok(0);
  }

  /** Bundle, then load: whatever tag is asked for, the entry read is one of the supplied Darwin descriptors, exactly
      when some such descriptor's digest was its own. */
  lemma BundleThenLoad(source: Layout, darwin: Layout, tag: string, arch: string, asked: string)
    requires Bundle(source, darwin, tag, arch).Ok?
    ensures Collect(darwin, arch).Ok? && Flatten(source.store, source.index.manifests).Ok?
    ensures var out := Bundle(source, darwin, tag, arch).value.index.manifests;
            var ds := Collect(darwin, arch).value;
            var r := Selection(out, asked, arch);
            (r.Ok? && Native(arch, out[r.value]) && Present(ds, out[r.value]))
            <==> SomeSurvives(Flatten(source.store, source.index.manifests).value, ds, arch)
  {
    var kept, added := BundleParts(source, darwin, tag, arch);
    var out := Bundle(source, darwin, tag, arch).value.index.manifests;
    RetagShape(kept + added, [], tag);
    LastEntryIsRead(kept, added, out, Collect(darwin, arch).value, arch);
  }

  lemma LastEntryIsRead(kept: seq<Descriptor>, added: seq<Descriptor>, out: seq<Descriptor>, ds: seq<Descriptor>,
        arch: string)
    requires SameBut(out, kept + added) && NoneNative(kept, arch) && AllNative(added, arch)
    requires forall i :: 0 <= i < |added| ==> added[i] in ds
    ensures added == [] ==> NoneNative(out, arch)
    ensures added != [] ==>
              LastNative(out, arch) == |out| - 1 && Native(arch, out[|out| - 1]) && Present(ds, out[|out| - 1])
  {
    var entries: seq<Descriptor> := kept + added;
    if added == [] {
      assert entries == kept;
    } else {
      var d := added[|added| - 1];
      assert entries[|out| - 1] == d;
      var j :| 0 <= j < |ds| && ds[j] == d;
      assert ds[j].blob == out[|out| - 1].blob;
    }
  }

  /** `b` and everything it refers to, however deep, is in the store. */
  ghost predicate ClosedUnder(store: set<Blob>, b: Blob)
    decreases b
  {
    && b in store
    && (b.Json? ==>
          && (forall i :: 0 <= i < |b.manifests| ==> ClosedUnder(store, b.manifests[i].blob))
          && (b.config.Some? ==> ClosedUnder(store, b.config.value))
          && (forall i :: 0 <= i < |b.layers| ==> ClosedUnder(store, b.layers[i])))
  }

  ghost predicate AllClosed(store: set<Blob>, ds: seq<Descriptor>) {
    forall i :: 0 <= i < |ds| ==> ClosedUnder(store, ds[i].blob)
  }

  lemma {:induction false} ClosedInLarger(store: set<Blob>, larger: set<Blob>, b: Blob)
    requires store <= larger && ClosedUnder(store, b)
    ensures ClosedUnder(larger, b)
    decreases b
  {
    if b.Json? {
      forall i | 0 <= i < |b.manifests|
        ensures ClosedUnder(larger, b.manifests[i].blob)
      {
        ClosedInLarger(store, larger, b.manifests[i].blob);
      }
      if b.config.Some? { ClosedInLarger(store, larger, b.config.value); }
      forall i | 0 <= i < |b.layers|
        ensures ClosedUnder(larger, b.layers[i])
      {
        ClosedInLarger(store, larger, b.layers[i]);
      }
    }
  }

  lemma {:induction false} FlattenKeepsClosed(store: set<Blob>, ds: seq<Descriptor>)
    requires Flatten(store, ds).Ok? && AllClosed(store, ds)
    ensures AllClosed(store, Flatten(store, ds).value)
    decreases ds
  {
    if ds != [] {
      assert forall i :: 0 <= i < |ds[1..]| ==> ds[1..][i] == ds[i + 1];
      FlattenKeepsClosed(store, ds[1..]);
      assert ClosedUnder(store, ds[0].blob);
      if ds[0].platform.None? && IsIndex(store, ds[0]).value {
        FlattenKeepsClosed(store, ds[0].blob.manifests);
      }
    }
  }

  lemma ClosedLeaves(store: set<Blob>, larger: set<Blob>, index: seq<Descriptor>, ds: seq<Descriptor>)
    requires store <= larger && Flatten(store, index).Ok? && AllClosed(store, index)
    requires forall i :: 0 <= i < |ds| ==> ds[i] in Flatten(store, index).value
    ensures AllClosed(larger, ds)
  {
    FlattenKeepsClosed(store, index);
    var leaves := Flatten(store, index).value;
    forall i | 0 <= i < |ds|
      ensures ClosedUnder(larger, ds[i].blob)
    {
      var j :| 0 <= j < |leaves| && leaves[j] == ds[i];
      assert ClosedUnder(store, leaves[j].blob);
      ClosedInLarger(store, larger, leaves[j].blob);
    }
  }

  /** No dangling digest: bundling two layouts that hold every blob they refer to makes one that does. */
  lemma BundleKeepsClosed(source: Layout, darwin: Layout, tag: string, arch: string)
    requires Bundle(source, darwin, tag, arch).Ok?
    requires AllClosed(source.store, source.index.manifests) && AllClosed(darwin.store, darwin.index.manifests)
    ensures var b := Bundle(source, darwin, tag, arch).value; AllClosed(b.store, b.index.manifests)
  {
    var b := Bundle(source, darwin, tag, arch).value;
    var kept, added := BundleParts(source, darwin, tag, arch);
    CollectIsNative(darwin, arch);
    var ds := Collect(darwin, arch).value;
    assert forall i :: 0 <= i < |added| ==> added[i] in ds;
    ClosedLeaves(source.store, b.store, source.index.manifests, kept);
    ClosedLeaves(darwin.store, b.store, darwin.index.manifests, added);
    forall i | 0 <= i < |b.index.manifests|
      ensures ClosedUnder(b.store, b.index.manifests[i].blob)
    {
      var entries: seq<Descriptor> := kept + added;
      assert b.index.manifests[i].blob == entries[i].blob;
      assert i < |kept| ==> entries[i] == kept[i];
      assert i >= |kept| ==> entries[i] == added[i - |kept|];
    }
  }

  /** So does wrapping for a push. */
  lemma WrapKeepsClosed(layout: Layout, tag: string)
    requires AllClosed(layout.store, layout.index.manifests)
    ensures AllClosed(WrapForPush(layout, tag).store, WrapForPush(layout, tag).index.manifests)
  {
    var w := WrapForPush(layout, tag);
    if |layout.index.manifests| > 1 {
      var inner := IndexBlob(layout.index);
      forall i | 0 <= i < |inner.manifests|
        ensures ClosedUnder(w.store, inner.manifests[i].blob)
      {
        ClosedInLarger(layout.store, w.store, layout.index.manifests[i].blob);
      }
      assert ClosedUnder(w.store, inner);
    }
  }
}
