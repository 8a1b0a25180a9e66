/** Directories whose own names ask for a removal. */
module HiddenNames {
  import opened Paths
  import opened FileTree
  import opened Layers
  import opened Modes
  import opened RootFilesystem
  import opened RoundTrip

  /** Where no directory bears a whiteout name, a tree comes back if and only if every name is ordinary, whatever the
      order. */
  lemma RoundTripsExactlyOrdinaryTrees(t: Tree, order: seq<Path>, rootMode: nat)
    requires HostTree(t) && Walk(t, order)
    requires forall p | IsDir(t, p) && p != [] :: !WhiteoutName(Base(p))
    ensures ComesBack(t, order, rootMode) <==> Ordinary(t)
  {
    if Ordinary(t) {
      OrdinaryComesBack(t, order, rootMode);
    }
    if ComesBack(t, order, rootMode) {
      forall p | p in t && p != []
        ensures OrdinaryName(Base(p))
      {
        assert !Hidden(p);
      }
    }
  }

  /** Success forces every name to be free of backslashes, no file or symlink to bear a whiteout name, and each
      directory that does to have the mode that is made for it and a directory in it. */
  lemma WhatComesBack(t: Tree, order: seq<Path>, rootMode: nat, p: Path)
    requires HostTree(t) && Walk(t, order) && ComesBack(t, order, rootMode) && p in t && p != []
    ensures PlainName(Base(p))
    ensures WhiteoutName(Base(p)) ==> t[p].Dir? && Perm(t[p].mode) == DEFAULT_DIR_MODE && exists n :: IsDir(t, p + [n])
  {
    if Hidden(p) {
      HiddenNeedsDirectory(t, order, p);
    }
  }

  lemma NotOpaque(n: Name)
    requires WHITEOUT + n == OPAQUE
    ensures WhiteoutName(n)
  {
    assert |n| == |OPAQUE| - 4;
    forall k | 0 <= k < 4
      ensures n[k] == WHITEOUT[k]
    {
      assert n[k] == (WHITEOUT + n)[4 + k];
    }
    assert n[..4] == WHITEOUT;
  }

  lemma HideDecodes(hidden: Name, n: Name)
    requires hidden != OPAQUE && |hidden| > |WHITEOUT| && hidden[|WHITEOUT|..] == n && PlainName(n)
    ensures DecodeWhiteout([hidden]) == Hide([], [n])
  {
    LexicalOfClean([n]);
    assert Parent([hidden]) == [] && Base([hidden]) == hidden;
    assert Parent([hidden]) + [n] == [n];
  }

  lemma HiddenNameDecodes(n: Name)
    requires OrdinaryName(n)
    ensures DecodeWhiteout([WHITEOUT + n]) == Hide([], [n])
  {
    if WHITEOUT + n == OPAQUE { NotOpaque(n); }
    assert (WHITEOUT + n)[|WHITEOUT|..] == n;
    HideDecodes(WHITEOUT + n, n);
  }

  lemma DirectoryHeaderDecodes(n: Name, mode: int)
    requires PlainName(n)
    ensures Decode(Entry(n + "/", DirectoryKind, mode))
            == if WhiteoutName(n) then DecodeWhiteout([n]) else AddDirectory([n], Perm(mode))
  {
    CleanOfOne(n);
  }

  lemma WhiteoutOfPlain(n: Name)
    requires PlainName(n)
    ensures PlainName(WHITEOUT + n) && WhiteoutName(WHITEOUT + n)
  {
  }

  lemma WhiteoutNamedEvents(n: Name)
    requires OrdinaryName(n)
    ensures Decode(DirectoryHeader(n)) == AddDirectory([n], 0x1ED)
    ensures Decode(DirectoryHeader(WHITEOUT + n)) == Hide([], [n])
  {
    PlainHeaderDecodes(n);
    WhiteoutOfPlain(n);
    HiddenNameDecodes(n);
    HiddenHeaderDecodes(WHITEOUT + n, n);
  }

  lemma PlainHeaderDecodes(n: Name)
    requires OrdinaryName(n)
    ensures Decode(DirectoryHeader(n)) == AddDirectory([n], 0x1ED)
  {
    DirectoryHeaderDecodes(n, 0x1ED);
  }

  lemma HiddenHeaderDecodes(hidden: Name, n: Name)
    requires PlainName(hidden) && WhiteoutName(hidden) && DecodeWhiteout([hidden]) == Hide([], [n])
    ensures Decode(DirectoryHeader(hidden)) == Hide([], [n])
  {
    DirectoryHeaderDecodes(hidden, 0x1ED);
  }

  function DirectoryHeader(n: Name): Entry {
    Entry(n + "/", DirectoryKind, 0x1ED)
  }

  /** A directory with a whiteout name may be lost, and the sibling it names with it, and nothing is reported. */
  lemma WhiteoutNamedDirectoryIsLost(n: Name, follow: Follow, result: Phase)
    requires OrdinaryName(n)
    requires LayerApplied(Fresh(DEFAULT_DIR_MODE), [DirectoryHeader(n), DirectoryHeader(WHITEOUT + n)], follow, result)
    ensures result == Phase(Fresh(DEFAULT_DIR_MODE), [], Done)
  {
    WhiteoutNamedEvents(n);
    AddThenHide(DirectoryHeader(n), DirectoryHeader(WHITEOUT + n), [n], follow, result);
  }

  lemma AddThenHide(a: Entry, b: Entry, dash: Path, follow: Follow, result: Phase)
    requires |dash| == 1 && Decode(a) == AddDirectory(dash, 0x1ED) && Decode(b) == Hide([], dash)
    requires LayerApplied(Fresh(DEFAULT_DIR_MODE), [a, b], follow, result)
    ensures result == Phase(Fresh(DEFAULT_DIR_MODE), [], Done)
  {
    ReplayAddThenHide(a, b, dash);
    SettlesNothing([a, b], dash, follow, result);
  }

  lemma SettlesNothing(es: seq<Entry>, dash: Path, follow: Follow, result: Phase)
    requires |dash| == 1 && LayerApplied(Fresh(DEFAULT_DIR_MODE), es, follow, result)
    requires Replay(State(Fresh(DEFAULT_DIR_MODE), map[], Done), es)
             == State(Fresh(DEFAULT_DIR_MODE), map[dash := 0x1ED], Done)
    ensures result == Phase(Fresh(DEFAULT_DIR_MODE), [], Done)
  {
    DashTrees(dash);
    FreshIsSearchable(DEFAULT_DIR_MODE);
    BenignLayer(Fresh(DEFAULT_DIR_MODE), es, follow, result, Fresh(DEFAULT_DIR_MODE), map[dash := 0x1ED]);
  }

  lemma ReplayAddThenHide(a: Entry, b: Entry, dash: Path)
    requires |dash| == 1 && Decode(a) == AddDirectory(dash, 0x1ED) && Decode(b) == Hide([], dash)
    ensures Replay(State(Fresh(DEFAULT_DIR_MODE), map[], Done), [a, b])
            == State(Fresh(DEFAULT_DIR_MODE), map[dash := 0x1ED], Done)
  {
    var t0 := Fresh(DEFAULT_DIR_MODE);
    TwoSteps(State(t0, map[], Done), a, b);
    DashTrees(dash);
    StepOutcome(t0, map[], a, WithDirectory(t0, dash), Done);
    StepOutcome(WithDirectory(t0, dash), map[dash := 0x1ED], b, t0, Done);
  }

  lemma DashTrees(dash: Path)
    requires |dash| == 1
    ensures var t0 := Fresh(DEFAULT_DIR_MODE);
            && Effect(t0, AddDirectory(dash, 0x1ED)) == Outcome(WithDirectory(t0, dash), Done)
            && Effect(WithDirectory(t0, dash), Hide([], dash)) == Outcome(t0, Done)
            && Benign(t0, map[dash := 0x1ED])
            && Settle(t0, map[dash := 0x1ED]) == t0
  {
    var t0 := Fresh(DEFAULT_DIR_MODE);
    var t1 := WithDirectory(t0, dash);
    assert Up(dash) == [];
    assert Guards(AddDirectory(dash, 0x1ED)) == [[]] && Guards(Hide([], dash)) == [[]];
    FirstGuard(t0, AddDirectory(dash, 0x1ED), []);
    FirstGuard(t1, Hide([], dash), []);
    forall q
      ensures q in t1 <==> q == [] || q == dash
    {
      if q <= dash { PrefixOrSelf(q, dash); }
    }
    assert Without(t1, dash) == t0;
    assert forall k | 0 <= k < |dash| :: dash[..k] == [];
    assert Settle(t0, map[dash := 0x1ED]) == t0;
  }

  /** Or it may come back: nothing bears the name it removes, and the directory in it makes it again. */
  lemma WhiteoutNamedDirectoryCanComeBack(n: Name, d: Name, rootMode: nat)
    requires OrdinaryName(n) && OrdinaryName(d)
    ensures var t := HiddenPair(WHITEOUT + n, d);
            var order := [[WHITEOUT + n], [WHITEOUT + n, d]];
            HostTree(t) && Walk(t, order) && Hidden(order[0]) && ComesBack(t, order, rootMode)
  {
    WhiteoutOfPlain(n);
    HiddenNameDecodes(n);
    HiddenPairComesBack(WHITEOUT + n, n, d, rootMode);
  }

  function HiddenPair(h: Name, d: Name): Tree {
    map[[] := Dir(DEFAULT_DIR_MODE), [h] := Dir(DEFAULT_DIR_MODE), [h, d] := Dir(DEFAULT_DIR_MODE)]
  }

  lemma HiddenPairWalk(h: Name, d: Name)
    requires PlainName(h) && PlainName(d)
    ensures HostTree(HiddenPair(h, d)) && Walk(HiddenPair(h, d), [[h], [h, d]])
  {
    var t, a, b: Path := HiddenPair(h, d), [h], [h, d];
    assert Parent(a) == [] && Parent(b) == a;
    var order := [a, b];
    assert order[..1] == [a] && a in order[..1];
  }

  lemma PairComesBack(t: Tree, a: Path, b: Path, rootMode: nat)
    requires Readable(t) && a != [] && Hidden(a) && !Hidden(b) && a <= b && t.Keys == {[], a, b}
    requires IsDir(t, a) && IsDir(t, b) && Masked(t[a]) == Dir(DEFAULT_DIR_MODE) && !DecodeWhiteout(a).Reject?
    requires !Clears(a, [])
    ensures ComesBack(t, [a, b], rootMode)
  {
    var order := [a, b];
    assert !Wiped(order);
    assert MadeAt(t, order, 1, a) && MadeAt(t, order, 1, b);
    forall p | p in t
      ensures Standing(t, order, p)
    {
    }
  }

  lemma HiddenPairComesBack(h: Name, n: Name, d: Name, rootMode: nat)
    requires PlainName(h) && WhiteoutName(h) && OrdinaryName(d) && DecodeWhiteout([h]) == Hide([], [n])
    ensures var t, order := HiddenPair(h, d), [[h], [h, d]];
            HostTree(t) && Walk(t, order) && Hidden(order[0]) && ComesBack(t, order, rootMode)
  {
    HiddenPairWalk(h, d);
    assert Base([h]) == h && Base([h, d]) == d;
    assert !Clears([h], []);
    PairComesBack(HiddenPair(h, d), [h], [h, d], rootMode);
  }
}
