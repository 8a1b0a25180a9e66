/** All layers of an image, one after the other (cmd/macker/oci.go, unpackImage). */
module Images {
  import opened Paths
  import opened FileTree
  import opened Layers
  import opened Modes
  import opened RootFilesystem
  import opened Changeset

  /** A layer with its entries taken apart: whiteouts first, then coherent additions. */
  datatype Changes = Changes(entries: seq<Entry>, whiteouts: seq<Event>, additions: seq<Event>)

  ghost predicate AllLayers(layers: seq<Changes>) {
    forall i :: 0 <= i < |layers| ==> Layer(layers[i].entries, layers[i].whiteouts, layers[i].additions)
  }

  function EntriesOf(layers: seq<Changes>): (entries: seq<seq<Entry>>)
    ensures |entries| == |layers| && forall i :: 0 <= i < |layers| ==> entries[i] == layers[i].entries
  {
    seq(|layers|, i requires 0 <= i < |layers| => layers[i].entries)
  }

  /** Every directory the layer names can be searched afterwards. */
  ghost predicate LeavesSearchable(layer: Changes) {
    forall ev :: ev in layer.additions && ev.AddDirectory? ==> Searchable(ev.mode)
  }

  /** From searchable directories the mode phase leaves searchable ones exactly when the recorded modes are. */
  lemma SettledSearchable(t: Tree, modes: map<Path, nat>)
    requires AllSearchable(t)
    ensures AllSearchable(Settle(t, modes)) <==> forall p :: p in modes && IsDir(t, p) ==> Searchable(modes[p])
  {
    var u := Settle(t, modes);
    forall p
      ensures IsDir(u, p) <==> IsDir(t, p)
      ensures IsDir(t, p) ==> u[p].mode == if p in modes then modes[p] else t[p].mode
    {
    }
  }

  /** A layer that goes through leaves the next one searchable directories exactly when those it names are. */
  lemma LayerLeavesSearchable(lower: Tree, layer: Changes, follow: Follow, result: Phase)
    requires Closed(lower) && AllSearchable(lower) && Layer(layer.entries, layer.whiteouts, layer.additions)
    requires LayerApplied(lower, layer.entries, follow, result) && result.status.Done?
    ensures AllSearchable(result.tree) <==> LeavesSearchable(layer)
  {
    var r := Replay(State(lower, map[], Done), layer.entries);
    LayerIsMerge(lower, layer.entries, layer.whiteouts, layer.additions, follow, result, []);
    LayerExactly(lower, layer.entries, follow, result);
    LayerIsBenign(lower, layer.entries, layer.whiteouts, layer.additions);
    ReplayKeepsSearchable(State(lower, map[], Done), layer.entries);
    SettledSearchable(r.tree, r.modes);
    forall p | p in r.modes
      ensures AddDirectory(p, r.modes[p]) in layer.additions
    {
      LayerModes(lower, layer.entries, layer.whiteouts, layer.additions, p);
    }
    forall ev | ev in layer.additions && ev.AddDirectory?
      ensures ev.at in r.modes && r.modes[ev.at] == ev.mode
    {
      LayerModes(lower, layer.entries, layer.whiteouts, layer.additions, ev.at);
      assert AddsAt(ev, ev.at);
      AddedOnce(layer.additions, ev, ev.at);
    }
  }

  /** What every layer before the `n`-th leaves the next. */
  ghost predicate Good(t: Tree) {
    Closed(t) && RealTree(t) && AllSearchable(t)
  }

  lemma {:induction false} LayersFindSearchable(before: Tree, layers: seq<Changes>, follow: Follow, phases: seq<Phase>,
        n: nat)
    requires Good(before) && AllLayers(layers) && ImageApplied(before, EntriesOf(layers), follow, phases)
    requires n <= |phases| && (n > 0 ==> phases[n - 1].status.Done?)
    requires forall i :: 0 <= i < n ==> LeavesSearchable(layers[i])
    ensures Good(TreeAfter(before, phases[..n]))
    decreases n
  {
    if n > 0 {
      var t := TreeAfter(before, phases[..n - 1]);
      OneLayer(before, layers, follow, phases, n - 1);
      LayersFindSearchable(before, layers, follow, phases, n - 1);
      NextFindsSearchable(t, layers[n - 1], follow, phases[n - 1]);
      assert phases[..n][n - 1] == phases[n - 1];
    }
  }

  lemma OneLayer(before: Tree, layers: seq<Changes>, follow: Follow, phases: seq<Phase>, i: nat)
    requires AllLayers(layers) && ImageApplied(before, EntriesOf(layers), follow, phases) && i < |phases|
    ensures Layer(layers[i].entries, layers[i].whiteouts, layers[i].additions)
    ensures LayerApplied(TreeAfter(before, phases[..i]), layers[i].entries, follow, phases[i])
    ensures i > 0 ==> phases[i - 1].status.Done?
  {
  }

  lemma NextFindsSearchable(t: Tree, layer: Changes, follow: Follow, result: Phase)
    requires Good(t) && Layer(layer.entries, layer.whiteouts, layer.additions) && LeavesSearchable(layer)
    requires LayerApplied(t, layer.entries, follow, result) && result.status.Done?
    ensures Good(result.tree)
  {
    LayerLeavesSearchable(t, layer, follow, result);
    LayerExactly(t, layer.entries, follow, result);
    ReplayKeepsReal(State(t, map[], Done), layer.entries);
    OnlyModesKeepShape(Replay(State(t, map[], Done), layer.entries).tree, result.tree);
  }

  lemma {:induction false} ReplayKeepsReal(s: State, es: seq<Entry>)
    requires Closed(s.tree) && RealTree(s.tree)
    ensures Closed(Replay(s, es).tree) && RealTree(Replay(s, es).tree)
    decreases |es|
  {
    if es != [] {
      ReplayKeepsReal(s, es[..|es| - 1]);
      StepStays(Replay(s, es[..|es| - 1]).tree, es[|es| - 1]);
    }
  }

  /** An image unpacked over searchable directories, as long as each layer before the `n`-th leaves them searchable:
      the `n`-th is led through no symlink, fails exactly when its stream does, and otherwise leaves at every path its
      merge with what the layers before have left. */
  lemma ImageIsMerged(before: Tree, layers: seq<Changes>, follow: Follow, phases: seq<Phase>, n: nat, p: Path)
    requires Good(before) && AllLayers(layers) && ImageApplied(before, EntriesOf(layers), follow, phases)
    requires n < |phases| && forall i :: 0 <= i < n ==> LeavesSearchable(layers[i])
    ensures var lower := TreeAfter(before, phases[..n]);
            && phases[n].escapes == []
            && (phases[n].status.Done? <==> AllLand(lower, layers[n].whiteouts, layers[n].additions))
            && (phases[n].status.Done? ==>
                  Lookup(phases[n].tree, p) == Merged(lower, layers[n].whiteouts, layers[n].additions, p))
  {
    var lower := TreeAfter(before, phases[..n]);
    LayersFindSearchable(before, layers, follow, phases, n);
    LayerIsMerge(lower, layers[n].entries, layers[n].whiteouts, layers[n].additions, follow, phases[n], p);
    LayerGoesThrough(lower, layers[n].entries, layers[n].whiteouts, layers[n].additions);
  }
}
