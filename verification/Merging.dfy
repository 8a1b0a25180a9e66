/** Merging a source image with the local Darwin image, and loading the result (cmd/macker/main.go,
    cmd/macker/oci.go). */
module Merging {
  import opened Text
  import opened Bundles

  /** A descriptor for the host's own Darwin platform. */
  predicate Native(arch: string, d: Descriptor) {
    d.platform.Some? && d.platform.value.os == "darwin" && d.platform.value.arch == arch
  }

  function Natives(arch: string, ds: seq<Descriptor>): seq<Descriptor> {
    if ds == [] then [] else (if Native(arch, ds[0]) then [ds[0]] else []) + Natives(arch, ds[1..])
  }

  function Foreign(arch: string, ds: seq<Descriptor>): seq<Descriptor> {
    if ds == [] then [] else (if Native(arch, ds[0]) then [] else [ds[0]]) + Foreign(arch, ds[1..])
  }

  /** bundleDescriptorPresent. */
  predicate Present(ds: seq<Descriptor>, d: Descriptor) {
    exists i :: 0 <= i < |ds| && ds[i].blob == d.blob
  }

  /** `ds` appended to `base`, leaving out what is present by then. */
  function AddNew(base: seq<Descriptor>, ds: seq<Descriptor>): seq<Descriptor>
    decreases |ds|
  {
    if ds == [] then base
    else AddNew(if Present(base, ds[0]) then base else base + [ds[0]], ds[1..])
  }

  /** Every tag annotation goes, and entry 0 gets the one that stays. */
  function Retag(ds: seq<Descriptor>, tag: string): (out: seq<Descriptor>)
    ensures |out| == |ds|
  {
    seq(|ds|, i requires 0 <= i < |ds| =>
      ds[i].(annotations := if i == 0 then (ds[i].annotations - {REF_NAME})[REF_NAME := tag]
          else ds[i].annotations - {REF_NAME}))
  }

  function MergedEntries(source: seq<Descriptor>, darwin: seq<Descriptor>, arch: string): seq<Descriptor> {
    AddNew(AddNew([], Foreign(arch, source)), darwin)
  }

  /** What mergeBundleIndices makes of a source whose entries flatten to `leaves`. */
  function MergeIndices(store: set<Blob>, source: Index, darwin: seq<Descriptor>, tag: string, arch: string):
    Result<Index, BundleError>
  {
    if source.schema != 0 && source.schema != 2 then Err(BadSchema)
    else if source.manifests == [] then Err(BundleError.Empty)
    else
      match Flatten(store, source.manifests)
      case Err(e) => Err(e)
      case Ok(leaves) =>
        var entries := MergedEntries(leaves, darwin, arch);
        if entries == [] then Err(BundleError.Empty)
        else Ok(Index(2, if source.media == "" then INDEX_MEDIA else source.media, Retag(entries, tag)))
  }

  function Collect(layout: Layout, arch: string): Result<seq<Descriptor>, BundleError> {
    match Flatten(layout.store, layout.index.manifests)
    case Err(e) => Err(e)
    case Ok(leaves) => Ok(Natives(arch, leaves))
  }

  /** mergeBundleLayouts: the Darwin manifests of one layout into the index of another, over both stores. */
  function Bundle(source: Layout, darwin: Layout, tag: string, arch: string): Result<Layout, BundleError> {
    match Collect(darwin, arch)
    case Err(e) => Err(e)
    case Ok(natives) =>
      if natives == [] then Err(NoDarwin)
      else
        match MergeIndices(source.store, source.index, natives, tag, arch)
        case Err(e) => Err(e)
        case Ok(index) => Ok(Layout(source.store + darwin.store, index))
  }

  method IsPresent(ds: seq<Descriptor>, d: Descriptor) returns (present: bool)
    ensures present <==> Present(ds, d)
  {
    var i := 0;
    while i < |ds|
      invariant 0 <= i <= |ds|
      invariant forall j :: 0 <= j < i ==> ds[j].blob != d.blob
    {
      if ds[i].blob == d.blob { return true; }
      i := i + 1;
    }
    present := false;
  }

  lemma {:induction false} ForeignConcat(arch: string, a: seq<Descriptor>, b: seq<Descriptor>)
    ensures Foreign(arch, a + b) == Foreign(arch, a) + Foreign(arch, b)
  {
    if a == [] {
      assert a + b == b;
    } else {
      ForeignConcat(arch, a[1..], b);
      assert (a + b)[1..] == a[1..] + b;
      var head := if Native(arch, a[0]) then [] else [a[0]];
      assert head + (Foreign(arch, a[1..]) + Foreign(arch, b)) == (head + Foreign(arch, a[1..])) + Foreign(arch, b);
    }
  }

  lemma {:induction false} NativesConcat(arch: string, a: seq<Descriptor>, b: seq<Descriptor>)
    ensures Natives(arch, a + b) == Natives(arch, a) + Natives(arch, b)
  {
    if a == [] {
      assert a + b == b;
    } else {
      NativesConcat(arch, a[1..], b);
      assert (a + b)[1..] == a[1..] + b;
      var head := if Native(arch, a[0]) then [a[0]] else [];
      assert head + (Natives(arch, a[1..]) + Natives(arch, b)) == (head + Natives(arch, a[1..])) + Natives(arch, b);
    }
  }

  lemma {:induction false} AddNewConcat(base: seq<Descriptor>, a: seq<Descriptor>, b: seq<Descriptor>)
    ensures AddNew(base, a + b) == AddNew(AddNew(base, a), b)
    decreases |a|
  {
    if a == [] {
      assert a + b == b;
    } else {
      assert (a + b)[1..] == a[1..] + b;
      AddNewConcat(if Present(base, a[0]) then base else base + [a[0]], a[1..], b);
    }
  }

  lemma LeafHasItsPlatform(store: set<Blob>, d: Descriptor)
    requires Leaf(store, d)
    ensures PlatformOf(store, d) == Ok(d.platform)
  {
    if d.platform.None? {
      var isIndex := IsIndex(store, d);
      if isIndex.Ok? && isIndex.value {
        NestedIsLighter(store, d);
      }
    }
  }

  /** An index is none of its own leaves. */
  lemma NestedIsLighter(store: set<Blob>, d: Descriptor)
    requires d.platform.None? && IsIndex(store, d) == Ok(true)
    ensures !Leaf(store, d)
  {
    if d.blob in store && d.blob.Json? && Flatten(store, d.blob.manifests).Ok? {
      FlattenWeighs(store, d.blob.manifests);
      var out := Flatten(store, d.blob.manifests).value;
      assert |out| == 1 ==> Weight(out[0].blob) < Weight(d.blob);
    }
  }

  lemma {:induction false} FlattenWeighs(store: set<Blob>, ds: seq<Descriptor>)
    requires Flatten(store, ds).Ok?
    ensures forall i :: 0 <= i < |Flatten(store, ds).value| ==>
             Weight(Flatten(store, ds).value[i].blob) < 1 + WeightAll(ds)
    decreases ds
  {
    if ds != [] {
      FlattenWeighs(store, ds[1..]);
      if ds[0].platform.None? && IsIndex(store, ds[0]).value {
        FlattenWeighs(store, ds[0].blob.manifests);
      }
    }
  }

  /** The two appending loops of mergeBundleIndices. Flattening has read every platform already, so reading it again
      cannot fail. */
  method AppendForeign(store: set<Blob>, leaves: seq<Descriptor>, arch: string) returns (merged: seq<Descriptor>)
    requires Leaves(store, leaves)
    ensures merged == AddNew([], Foreign(arch, leaves))
  {
    merged := [];
    var i := 0;
    while i < |leaves|
      invariant 0 <= i <= |leaves|
      invariant merged == AddNew([], Foreign(arch, leaves[..i]))
    {
      var d := leaves[i];
      assert Leaf(store, d);
      LeafHasItsPlatform(store, d);
      assert leaves[..i + 1] == leaves[..i] + [d];
      ForeignConcat(arch, leaves[..i], [d]);
      AddNewConcat([], Foreign(arch, leaves[..i]), Foreign(arch, [d]));
      assert [d][1..] == [];
      i := i + 1;
      var platform := PlatformOf(store, d);
      if platform.value.Some? {
        d := d.(platform := platform.value);
        if d.platform.value.os == "darwin" && d.platform.value.arch == arch { continue; }
      }
      var present := IsPresent(merged, d);
      if !present { merged := merged + [d]; }
    }
    assert leaves[..i] == leaves;
  }

  method AppendNew(base: seq<Descriptor>, ds: seq<Descriptor>) returns (merged: seq<Descriptor>)
    ensures merged == AddNew(base, ds)
  {
    merged := base;
    var i := 0;
    while i < |ds|
      invariant 0 <= i <= |ds|
      invariant AddNew(base, ds) == AddNew(merged, ds[i..])
    {
      var present := IsPresent(merged, ds[i]);
      assert ds[i..][1..] == ds[i + 1..];
      if !present { merged := merged + [ds[i]]; }
      i := i + 1;
    }
  }

  /** The annotation loop: tags are deleted in place, then entry 0 is tagged. */
  method RetagEntries(ds: seq<Descriptor>, tag: string) returns (out: seq<Descriptor>)
    requires ds != []
    ensures out == Retag(ds, tag)
  {
    out := ds;
    var i := 0;
    while i < |out|
      invariant 0 <= i <= |out| == |ds|
      invariant forall j :: 0 <= j < i ==> out[j] == ds[j].(annotations := ds[j].annotations - {REF_NAME})
      invariant forall j :: i <= j < |ds| ==> out[j] == ds[j]
    {
      out := out[i := out[i].(annotations := out[i].annotations - {REF_NAME})];
      i := i + 1;
    }
    out := out[0 := out[0].(annotations := out[0].annotations[REF_NAME := tag])];
  }

  /** mergeBundleIndices. */
  method MergeBundleIndices(store: set<Blob>, source: Index, darwin: seq<Descriptor>, tag: string, arch: string)
    returns (r: Result<Index, BundleError>)
    ensures r == MergeIndices(store, source, darwin, tag, arch)
  {
    var schema := if source.schema == 0 then 2 else source.schema;
    if schema != 2 { return Err(BadSchema); }
    if source.manifests == [] { return Err(BundleError.Empty); }
    var leaves := FlattenDescriptors(store, source.manifests);
    if leaves.Err? { return Err(leaves.error); }
    FlattenGivesLeaves(store, source.manifests);
    var retained := AppendForeign(store, leaves.value, arch);
    var merged := AppendNew(retained, darwin);
    if merged == [] { return Err(BundleError.Empty); }
    merged := RetagEntries(merged, tag);
    r := Ok(Index(schema, if source.media == "" then INDEX_MEDIA else source.media, merged));
  }

  /** Digests are pairwise distinct. */
  ghost predicate Distinct(ds: seq<Descriptor>) {
    forall i, j :: 0 <= i < j < |ds| ==> ds[i].blob != ds[j].blob
  }

  /** `a` is what is left of `b` when some entries are struck out. */
  ghost predicate Subsequence(a: seq<Descriptor>, b: seq<Descriptor>)
    decreases |b|
  {
    if b == [] then a == []
    else Subsequence(a, b[1..]) || (a != [] && a[0] == b[0] && Subsequence(a[1..], b[1..]))
  }

  /** What AddNew appends: in order, the entries whose digest is new, each digest once, none left out. */
  lemma {:induction false} AddNewAppends(base: seq<Descriptor>, ds: seq<Descriptor>)
    requires Distinct(base)
    ensures Distinct(AddNew(base, ds)) && base <= AddNew(base, ds)
    ensures Subsequence(AddNew(base, ds)[|base|..], ds)
    ensures forall i :: 0 <= i < |ds| ==> Present(AddNew(base, ds), ds[i])
    decreases |ds|
  {
    var out := AddNew(base, ds);
    if ds == [] {
      assert out[|base|..] == [];
    } else {
      var next := if Present(base, ds[0]) then base else base + [ds[0]];
      AddNewAppends(next, ds[1..]);
      forall i | 0 <= i < |ds|
        ensures Present(out, ds[i])
      {
        if i == 0 {
          var j :| 0 <= j < |next| && next[j].blob == ds[0].blob;
          assert out[j] == next[j];
        } else {
          assert ds[i] == ds[1..][i - 1];
        }
      }
      if next != base {
        assert out[|base|] == ds[0];
        assert out[|base|..][1..] == out[|next|..];
      }
    }
  }

  lemma {:induction false} ForeignMeaning(arch: string, ds: seq<Descriptor>)
    ensures forall d :: d in Foreign(arch, ds) <==> d in ds && !Native(arch, d)
    ensures forall d :: d in Natives(arch, ds) <==> d in ds && Native(arch, d)
    ensures Subsequence(Foreign(arch, ds), ds) && Subsequence(Natives(arch, ds), ds)
  {
    if ds != [] {
      ForeignMeaning(arch, ds[1..]);
      if Native(arch, ds[0]) {
        assert Foreign(arch, ds) == Foreign(arch, ds[1..]);
        assert Natives(arch, ds)[1..] == Natives(arch, ds[1..]);
      } else {
        assert Foreign(arch, ds)[1..] == Foreign(arch, ds[1..]);
        assert Natives(arch, ds) == Natives(arch, ds[1..]);
      }
    }
  }

  /** The same annotations, the tag apart. */
  ghost predicate SameAnnotations(a: Annotations, b: Annotations) {
    a - {"org.opencontainers.image.ref.name"} == b - {"org.opencontainers.image.ref.name"}
  }

  /** Retagging touches the tag only. */
  ghost predicate SameBut(out: seq<Descriptor>, entries: seq<Descriptor>) {
    && |out| == |entries|
    && forall i :: 0 <= i < |out| ==>
         && out[i] == entries[i].(annotations := out[i].annotations)
         && SameAnnotations(out[i].annotations, entries[i].annotations)
  }

  ghost predicate OneTag(out: seq<Descriptor>, tag: string) {
    && out != []
    && (forall i :: 0 <= i < |out| ==> ("org.opencontainers.image.ref.name" in out[i].annotations <==> i == 0))
    && out[0].annotations["org.opencontainers.image.ref.name"] == tag
  }

  ghost predicate AllPresent(out: seq<Descriptor>, ds: seq<Descriptor>) {
    forall i :: 0 <= i < |ds| ==> Present(out, ds[i])
  }

  lemma RetagShape(entries: seq<Descriptor>, ds: seq<Descriptor>, tag: string)
    requires entries != []
    ensures SameBut(Retag(entries, tag), entries) && OneTag(Retag(entries, tag), tag)
    ensures AllPresent(entries, ds) ==> AllPresent(Retag(entries, tag), ds)
    ensures Distinct(entries) ==> Distinct(Retag(entries, tag))
  {
    var out := Retag(entries, tag);
    if AllPresent(entries, ds) {
      forall i | 0 <= i < |ds|
        ensures Present(out, ds[i])
      {
        assert Present(entries, ds[i]);
        var j :| 0 <= j < |entries| && entries[j].blob == ds[i].blob;
        assert out[j].blob == ds[i].blob;
      }
    }
  }

  lemma PrefixPresent(a: seq<Descriptor>, b: seq<Descriptor>, ds: seq<Descriptor>)
    requires a <= b && AllPresent(a, ds)
    ensures AllPresent(b, ds)
  {
    forall i | 0 <= i < |ds|
      ensures Present(b, ds[i])
    {
      assert Present(a, ds[i]);
      var j :| 0 <= j < |a| && a[j].blob == ds[i].blob;
      assert b[j] == a[j];
    }
  }

  /** `out` is, apart from annotations, the kept source leaves in order and then Darwin descriptors in order. */
  ghost predicate KeptThenDarwin(out: seq<Descriptor>, leaves: seq<Descriptor>, darwin: seq<Descriptor>, arch: string) {
    exists kept: seq<Descriptor>, added: seq<Descriptor> ::
      SameBut(out, kept + added) && Subsequence(kept, Foreign(arch, leaves)) && Subsequence(added, darwin)
  }

  /** What a merged index is: digests distinct; first the non-native leaves of the source, in order, none missing;
      then the Darwin descriptors; one tag, on entry 0. */
  lemma MergedIndexShape(store: set<Blob>, source: Index, darwin: seq<Descriptor>, tag: string, arch: string)
    requires MergeIndices(store, source, darwin, tag, arch).Ok?
    ensures var merged := MergeIndices(store, source, darwin, tag, arch).value;
            && merged.schema == 2
            && merged.media == if source.media == "" then "application/vnd.oci.image.index.v1+json" else source.media
    ensures var leaves := Flatten(store, source.manifests).value;
            var out := MergeIndices(store, source, darwin, tag, arch).value.manifests;
            && Distinct(out) && OneTag(out, tag) && KeptThenDarwin(out, leaves, darwin, arch)
            && AllPresent(out, Foreign(arch, leaves)) && AllPresent(out, darwin)
  {
    var leaves := Flatten(store, source.manifests).value;
    var entries := MergedEntries(leaves, darwin, arch);
    EntriesShape(leaves, darwin, arch);
    RetagShape(entries, Foreign(arch, leaves), tag);
    RetagShape(entries, darwin, tag);
    var kept, added :| entries == kept + added && Subsequence(kept, Foreign(arch, leaves))
        && Subsequence(added, darwin);
    assert SameBut(Retag(entries, tag), kept + added);
  }

  lemma EntriesShape(leaves: seq<Descriptor>, darwin: seq<Descriptor>, arch: string)
    ensures var entries := MergedEntries(leaves, darwin, arch);
            && Distinct(entries) && AllPresent(entries, Foreign(arch, leaves)) && AllPresent(entries, darwin)
            && exists kept: seq<Descriptor>, added: seq<Descriptor> ::
                 entries == kept + added && Subsequence(kept, Foreign(arch, leaves)) && Subsequence(added, darwin)
  {
    TwoParts(Foreign(arch, leaves), darwin);
  }

  /** One sequence appended to nothing, another to what came of it. */
  lemma TwoParts(first: seq<Descriptor>, second: seq<Descriptor>)
    ensures var out := AddNew(AddNew([], first), second);
            && Distinct(out) && AllPresent(out, first) && AllPresent(out, second)
            && exists kept: seq<Descriptor>, added: seq<Descriptor> ::
                 out == kept + added && Subsequence(kept, first) && Subsequence(added, second)
  {
    var kept := AddNew([], first);
    var out := AddNew(kept, second);
    AddNewAppends([], first);
    assert kept[0..] == kept;
    AddNewAppends(kept, second);
    PrefixPresent(kept, out, first);
    assert out == kept + out[|kept|..];
  }

  /** When merging fails: over a schema other than 2 (which is what none means), a source without entries or one that
      cannot be flattened, and when nothing is left to be in the index. */
  lemma MergeFailsExactly(store: set<Blob>, source: Index, darwin: seq<Descriptor>, tag: string, arch: string)
    ensures var r := MergeIndices(store, source, darwin, tag, arch);
            var flat := Flatten(store, source.manifests);
            && (r.Err? <==>
                  || source.schema !in {0, 2} || source.manifests == [] || flat.Err?
                  || (darwin == [] && forall d :: d in flat.value ==> Native(arch, d)))
            && (source.schema in {0, 2} && flat.Err? ==> r == Err(flat.error))
  {
    if (source.schema in {0, 2}) && source.manifests != [] && Flatten(store, source.manifests).Ok? {
      var leaves := Flatten(store, source.manifests).value;
      NothingIsLeft(leaves, darwin, arch);
    }
  }

  lemma SomeIsAbsent(ds: seq<Descriptor>)
    requires ds != []
    ensures !AllPresent([], ds)
  {
    assert !Present([], ds[0]);
  }

  lemma NothingIsLeft(leaves: seq<Descriptor>, darwin: seq<Descriptor>, arch: string)
    ensures MergedEntries(leaves, darwin, arch) == [] <==> darwin == [] && forall d :: d in leaves ==> Native(arch, d)
  {
    var foreign, entries := Foreign(arch, leaves), MergedEntries(leaves, darwin, arch);
    ForeignMeaning(arch, leaves);
    EntriesShape(leaves, darwin, arch);
    if entries == [] {
      if foreign != [] { SomeIsAbsent(foreign); }
      if darwin != [] { SomeIsAbsent(darwin); }
      forall d | d in leaves
        ensures Native(arch, d)
      {
        assert d !in foreign;
      }
    }
    if darwin == [] && (forall d :: d in leaves ==> Native(arch, d)) && foreign != [] {
      assert foreign[0] in foreign;
    }
  }
}
