/** What the names and types of tar headers ask for (cmd/macker/oci.go, applyTarLayer and applyWhiteout), in literal
    terms, and what a layer of one entry does. */
module Headers {
  import opened Text
  import opened Paths
  import opened FileTree
  import opened Layers
  import opened Modes
  import opened RootFilesystem

  /** The header name of `base` in the directory `d`. */
  function NameIn(d: Path, base: string): string {
    if d == [] then base else Render(d) + "/" + base
  }

  lemma {:induction false} NameInRenders(d: Path, base: string)
    ensures NameIn(d, base) == Render(d + [base])
  {
    if d == [] {
      assert Render([base]) == base;
    } else {
      var p := d + [base];
      assert p[0] == d[0] && p[1..] == d[1..] + [base];
      NameInRenders(d[1..], base);
      if |d| > 1 { JoinedAgain(d, base); }
    }
  }

  lemma JoinedAgain(d: Path, base: string)
    requires |d| > 1
    ensures d[0] + ['/'] + (Render(d[1..]) + "/" + base) == Render(d) + "/" + base
  {
    assert Render(d) == d[0] + ['/'] + Render(d[1..]);
  }

  lemma NameInCleans(d: Path, base: string)
    requires CleanPath(d) && PlainName(base)
    ensures CleanArchivePath(NameIn(d, base)) == Ok(d + [base])
    ensures Parent(d + [base]) == d && Base(d + [base]) == base
  {
    NameInRenders(d, base);
    CleanOfRendered(d + [base]);
  }

  /** Every entry named `.wh..wh..opq`, in whatever directory and of whatever type, empties that directory. */
  lemma OpaqueHeader(d: Path, kind: Kind, mode: int)
    requires CleanPath(d)
    ensures Decode(Entry(NameIn(d, ".wh..wh..opq"), kind, mode)) == Empty(d)
  {
    var base := ".wh..wh..opq";
    assert '/' !in base && '\\' !in base && base[1] == 'w';
    assert ".wh." <= base;
    NameInCleans(d, base);
  }

  lemma WhiteoutIsDecoded(d: Path, base: string, kind: Kind, mode: int)
    requires CleanPath(d) && PlainName(base) && WhiteoutName(base)
    ensures Decode(Entry(NameIn(d, base), kind, mode)) == DecodeWhiteout(d + [base])
  {
    NameInCleans(d, base);
  }

  lemma DecodedWhiteout(d: Path, base: string, n: string)
    requires CleanPath(d) && base != OPAQUE && |base| == |WHITEOUT| + |n| && base[|WHITEOUT|..] == n
    ensures var target := Lexical(d + [n]);
            DecodeWhiteout(d + [base]) == if n == "" then Reject(d, BadWhiteout)
                                          else if target != [] && target[0] == ".." then Reject(d, Unsafe)
                                          else Hide(d, target)
  {
    assert Parent(d + [base]) == d && Base(d + [base]) == base;
  }

  lemma LexicalOfMore(d: Path, n: string)
    ensures Lexical(d + [n]) == Push(Lexical(d), n)
  {
    assert (d + [n])[..|d|] == d && (d + [n])[|d|] == n;
  }

  lemma OneMoreComponent(d: Path, n: string)
    requires CleanPath(d)
    ensures Lexical(d + [n]) == if n == "" || n == "." then d
                                else if n == ".." then (if d == [] then [".."] else d[..|d| - 1]) else d + [n]
  {
    LexicalOfClean(d);
    LexicalOfMore(d, n);
  }

  /** Every other entry whose name begins with `.wh.` removes what the rest of its name says: a name beside it; for "."
      the directory itself; for ".." the directory above, where there is one; and nothing at all is an error. */
  lemma WhiteoutHeader(d: Path, n: string, kind: Kind, mode: int)
    requires CleanPath(d) && '/' !in n && '\\' !in n && n != ".wh..opq"
    ensures var ev := Decode(Entry(NameIn(d, ".wh." + n), kind, mode));
            && (n == "" ==> ev == Reject(d, BadWhiteout))
            && (n == "." ==> ev == Hide(d, d))
            && (n == ".." ==> ev == if d == [] then Reject(d, Unsafe) else Hide(d, d[..|d| - 1]))
            && (n !in ["", ".", ".."] ==> ev == Hide(d, d + [n]))
  {
    PrefixedName(n);
    WhiteoutIsDecoded(d, ".wh." + n, kind, mode);
    DecodedWhiteout(d, ".wh." + n, n);
    OneMoreComponent(d, n);
  }

  lemma PrefixedName(n: string)
    requires '/' !in n && '\\' !in n
    ensures var base := ".wh." + n;
            PlainName(base) && WhiteoutName(base) && base[|WHITEOUT|..] == n && |base| == 4 + |n|
    ensures ".wh." + n == OPAQUE ==> n == ".wh..opq"
  {
    var base := ".wh." + n;
    assert base[1] == 'w' && base[4..] == n;
    if base == OPAQUE { assert n == OPAQUE[4..]; }
  }

  /** Any other entry adds what its type says at its own path, with the permission bits of its mode. */
  lemma PlainHeader(d: Path, n: string, kind: Kind, mode: int)
    requires CleanPath(d) && PlainName(n) && !(".wh." <= n) && 0 <= mode
    ensures var ev := Decode(Entry(NameIn(d, n), kind, mode));
            match kind
            case DirectoryKind => ev == AddDirectory(d + [n], mode % 512)
            case RegularKind(content) => ev == AddLeaf(d + [n], File(content, mode % 512))
            case SymlinkKind(link) => ev == AddLeaf(d + [n], Symlink(link))
            case HardLinkKind(link) =>
              ev == (if CleanArchivePath(link).Ok? then AddLink(d + [n], CleanArchivePath(link).value)
                     else Reject(d, Unsafe))
            case OtherKind => ev == Reject(d, Unsupported)
  {
    NameInCleans(d, n);
  }

  lemma OneEntry(lower: Tree, e: Entry, follow: Follow, result: Phase)
    requires LayerApplied(lower, [e], follow, result) && !Decode(e).AddDirectory?
    ensures result == Phase(Effect(lower, Decode(e)).tree, [], Effect(lower, Decode(e)).status)
  {
    var s := State(lower, map[], Done);
    assert [e][..0] == [];
    assert Replay(s, []) == s;
    assert Replay(s, [e]) == Step(s, e);
    var none: map<Path, nat> := map[];
    assert forall order: seq<Path> :: DeepestFirst(none, order) ==> order == [];
  }

  lemma OneGuardedEntry(t: Tree, ev: Event, d: Path)
    requires Closed(t) && Guards(ev) == [d]
    ensures CheckAll(t, Guards(ev)).Done? <==> ParentsClear(t, d)
  {
    CheckParentsMeaning(t, d);
    FirstGuard(t, ev, d);
  }

  lemma RemovedExactly(t: Tree, d: Path, target: Path)
    requires Closed(t)
    ensures Effect(t, Empty(d)) == if ParentsClear(t, d) then Outcome(Emptied(t, d), Done)
                                   else Outcome(t, CheckParents(t, d))
    ensures Effect(t, Hide(d, target)) == if ParentsClear(t, d) then Outcome(Without(t, target), Done)
                                          else Outcome(t, CheckParents(t, d))
    ensures CheckParents(t, d).Done? <==> ParentsClear(t, d)
  {
    CheckParentsMeaning(t, d);
    FirstGuard(t, Empty(d), d);
    FirstGuard(t, Hide(d, target), d);
  }

  /** An opaque whiteout: if nothing on the way to its directory is a symlink or another non-directory, all that lies
      below that directory is gone and everything else, the directory itself included, is as it was. */
  lemma OpaqueLayer(lower: Tree, d: Path, kind: Kind, mode: int, follow: Follow, result: Phase)
    requires Closed(lower) && CleanPath(d)
    requires LayerApplied(lower, [Entry(NameIn(d, ".wh..wh..opq"), kind, mode)], follow, result)
    ensures result.escapes == [] && (result.status.Done? <==> ParentsClear(lower, d))
    ensures forall q :: Lookup(result.tree, q) == if result.status.Done? && d < q then None else Lookup(lower, q)
  {
    OpaqueHeader(d, kind, mode);
    OneEntry(lower, Entry(NameIn(d, ".wh..wh..opq"), kind, mode), follow, result);
    RemovedExactly(lower, d, d);
  }

  /** A whiteout of a name: likewise, and what bears that name is gone with all that is below it. */
  lemma WhiteoutLayer(lower: Tree, d: Path, n: string, kind: Kind, mode: int, follow: Follow, result: Phase)
    requires Closed(lower) && CleanPath(d) && PlainName(n) && n != ".wh..opq"
    requires LayerApplied(lower, [Entry(NameIn(d, ".wh." + n), kind, mode)], follow, result)
    ensures result.escapes == [] && (result.status.Done? <==> ParentsClear(lower, d))
    ensures forall q ::
              Lookup(result.tree, q) == if result.status.Done? && d + [n] <= q then None else Lookup(lower, q)
  {
    WhiteoutHeader(d, n, kind, mode);
    OneEntry(lower, Entry(NameIn(d, ".wh." + n), kind, mode), follow, result);
    RemovedExactly(lower, d, d + [n]);
  }

  /** The tree with a leaf put at `p`: that node there, nothing below it, everything else as it was. */
  lemma WithLeafExactly(t: Tree, p: Path, node: Node)
    ensures forall q ::
              Lookup(WithLeaf(t, p, node), q) == if q == p then Some(node) else if p < q then None else Lookup(t, q)
  {
    forall q
      ensures Lookup(WithLeaf(t, p, node), q) == if q == p then Some(node) else if p < q then None else Lookup(t, q)
    {
      if p <= q { PrefixOrSelf(p, q); }
    }
  }

  lemma NothingWithoutItsDirectory(t: Tree, d: Path, n: string)
    requires Closed(t) && d !in t
    ensures Without(t, d + [n]) == t
  {
    forall q | q in t && d + [n] <= q
      ensures false
    {
      AncestorsAreDirectories(t, q, d);
    }
  }

  /** The obstacle on the way, or else the given error. */
  function WhyNot(t: Tree, d: Path, error: Error): Status {
    if CheckParents(t, d).Failed? then CheckParents(t, d) else Failed(error)
  }

  lemma AddedExactly(t: Tree, d: Path, n: string, node: Node)
    requires Closed(t)
    ensures var out := Effect(t, AddLeaf(d + [n], node));
            && (out.status.Done? <==> ParentsClear(t, d) && d in t)
            && (out.status.Done? ==> out.tree == WithLeaf(t, d + [n], node))
            && (out.status.Failed? ==> out.tree == t && out.status == WhyNot(t, d, Missing))
  {
    var p := d + [n];
    assert Up(p) == d;
    OneGuardedEntry(t, AddLeaf(p, node), d);
    assert d in Without(t, p) <==> d in t;
    if d !in t { NothingWithoutItsDirectory(t, d, n); }
  }

  /** A file: it needs a directory to be in, replaces whatever was at its path, with its content and the permission bits
      of its mode, and changes nothing else; if it cannot be made nothing has changed. */
  lemma FileLayer(lower: Tree, d: Path, n: string, content: string, mode: int, follow: Follow, result: Phase)
    requires Closed(lower) && CleanPath(d) && PlainName(n) && !(".wh." <= n) && 0 <= mode
    requires LayerApplied(lower, [Entry(NameIn(d, n), RegularKind(content), mode)], follow, result)
    ensures result.escapes == [] && (result.status.Done? <==> ParentsClear(lower, d) && d in lower)
    ensures result.status.Done? ==> result.tree == WithLeaf(lower, d + [n], File(content, mode % 512))
    ensures result.status.Failed? ==> result.tree == lower && result.status == WhyNot(lower, d, Missing)
  {
    PlainHeader(d, n, RegularKind(content), mode);
    OneEntry(lower, Entry(NameIn(d, n), RegularKind(content), mode), follow, result);
    AddedExactly(lower, d, n, File(content, mode % 512));
  }

  /** A symlink: likewise, with its target as it stands, wherever that leads. */
  lemma SymlinkLayer(lower: Tree, d: Path, n: string, link: string, mode: int, follow: Follow, result: Phase)
    requires Closed(lower) && CleanPath(d) && PlainName(n) && !(".wh." <= n) && 0 <= mode
    requires LayerApplied(lower, [Entry(NameIn(d, n), SymlinkKind(link), mode)], follow, result)
    ensures result.escapes == [] && (result.status.Done? <==> ParentsClear(lower, d) && d in lower)
    ensures result.status.Done? ==> result.tree == WithLeaf(lower, d + [n], Symlink(link))
    ensures result.status.Failed? ==> result.tree == lower && result.status == WhyNot(lower, d, Missing)
  {
    PlainHeader(d, n, SymlinkKind(link), mode);
    OneEntry(lower, Entry(NameIn(d, n), SymlinkKind(link), mode), follow, result);
    AddedExactly(lower, d, n, Symlink(link));
  }

  lemma TwoGuards(t: Tree, p: Path, source: Path)
    requires Closed(t) && p != []
    ensures CheckAll(t, Guards(AddLink(p, source))).Done? <==> ParentsClear(t, Up(p)) && ParentsClear(t, Up(source))
  {
    CheckParentsMeaning(t, Up(p));
    CheckParentsMeaning(t, Up(source));
    FirstGuard(t, AddLink(p, source), Up(p));
  }

  lemma LinkEffect(t: Tree, p: Path, source: Path)
    requires Closed(t) && p != []
    ensures var out := Effect(t, AddLink(p, source));
            if ParentsClear(t, Up(p)) && ParentsClear(t, Up(source)) then out == Linked(t, p, source)
            else out.status.Failed? && out.tree == t
  {
    TwoGuards(t, p, source);
  }

  lemma LinkedExactly(t: Tree, p: Path, source: Path)
    requires p != []
    ensures var out := Linked(t, p, source);
            && (out.status.Done? <==> Up(p) in t && source in t && t[source].File? && !(p <= source))
            && (out.status.Done? ==> out.tree == WithLeaf(t, p, t[source]))
            && (out.status.Failed? ==> out.tree == Without(t, p))
  {
    assert Up(p) in Without(t, p) <==> Up(p) in t;
    assert source in Without(t, p) <==> source in t && !(p <= source);
  }

  /** A hard link: when both ways are clear it puts the content and mode of its source, a regular file elsewhere, at its
      own path; where there is no such file, what was at its own path is gone all the same. */
  lemma HardLinkLayer(lower: Tree, d: Path, n: string, link: string, mode: int, follow: Follow, result: Phase)
    requires Closed(lower) && CleanPath(d) && PlainName(n) && !(".wh." <= n) && 0 <= mode
    requires CleanArchivePath(link).Ok?
    requires LayerApplied(lower, [Entry(NameIn(d, n), HardLinkKind(link), mode)], follow, result)
    ensures var p, source := d + [n], CleanArchivePath(link).value;
            var clear := ParentsClear(lower, d) && ParentsClear(lower, Up(source));
            && result.escapes == []
            && (result.status.Done? <==>
                  clear && d in lower && source in lower && lower[source].File? && !(p <= source))
            && (result.status.Done? ==> result.tree == WithLeaf(lower, p, lower[source]))
            && (result.status.Failed? ==> result.tree == if clear then Without(lower, p) else lower)
  {
    var p, source := d + [n], CleanArchivePath(link).value;
    PlainHeader(d, n, HardLinkKind(link), mode);
    OneEntry(lower, Entry(NameIn(d, n), HardLinkKind(link), mode), follow, result);
    assert Up(p) == d;
    LinkEffect(lower, p, source);
    LinkedExactly(lower, p, source);
  }

  /** A directory: it makes what directories are missing on the way with mode 0755, takes the place of what is at its
      path unless that is a directory, whose contents it keeps, and has the permission bits of its own mode. */
  lemma DirectoryLayer(lower: Tree, d: Path, n: string, mode: int, follow: Follow, result: Phase)
    requires Closed(lower) && AllSearchable(lower) && CleanPath(d) && PlainName(n) && !(".wh." <= n) && 0 <= mode
    requires LayerApplied(lower, [Entry(NameIn(d, n), DirectoryKind, mode)], follow, result)
    ensures result.escapes == [] && (result.status.Done? <==> ParentsClear(lower, d))
    ensures result.status.Done? ==>
              forall q :: Lookup(result.tree, q) == if q == d + [n] then Some(Dir(mode % 512))
                                                    else if q <= d && q !in lower then Some(Dir(493))
                                                    else Lookup(lower, q)
    ensures result.status.Failed? ==> result.tree == lower
  {
    var p, e := d + [n], Entry(NameIn(d, n), DirectoryKind, mode);
    PlainHeader(d, n, DirectoryKind, mode);
    assert Up(p) == d;
    OneGuardedEntry(lower, AddDirectory(p, mode % 512), d);
    assert [e][..0] == [];
    var s := State(lower, map[], Done);
    assert Replay(s, []) == s;
    assert Replay(s, [e]) == Step(s, e);
    LayerExactly(lower, [e], follow, result);
    if ParentsClear(lower, d) {
      ReplayKeepsClosed(s, [e]);
      MadeDirectory(lower, d, n);
      SettledDirectory(lower, d, n, mode % 512);
      BenignLayer(lower, [e], follow, result, WithDirectory(lower, p), map[p := mode % 512]);
    }
  }

  lemma MadeDirectoryAt(t: Tree, d: Path, n: string, q: Path)
    requires ParentsClear(t, d) && ([] in t ==> t[[]].Dir?) && q != d + [n]
    ensures Lookup(WithDirectory(t, d + [n]), q) == if q <= d && q !in t then Some(Dir(493)) else Lookup(t, q)
  {
    if q <= d + [n] {
      assert q == (d + [n])[..|q|] == d[..|q|];
    }
  }

  lemma MadeDirectory(t: Tree, d: Path, n: string)
    requires Closed(t) && ParentsClear(t, d)
    ensures var p := d + [n];
            && IsDir(WithDirectory(t, p), p)
            && forall q :: q != p ==>
                 Lookup(WithDirectory(t, p), q) == if q <= d && q !in t then Some(Dir(493)) else Lookup(t, q)
  {
    forall q | q != d + [n]
      ensures Lookup(WithDirectory(t, d + [n]), q) == if q <= d && q !in t then Some(Dir(493)) else Lookup(t, q)
    {
      MadeDirectoryAt(t, d, n, q);
    }
  }

  lemma SettledDirectory(t: Tree, d: Path, n: string, mode: nat)
    requires Closed(WithDirectory(t, d + [n])) && IsDir(WithDirectory(t, d + [n]), d + [n])
    ensures var p := d + [n];
            var u := WithDirectory(t, p);
            && Benign(u, map[p := mode])
            && forall q :: Lookup(Settle(u, map[p := mode]), q) == if q == p then Some(Dir(mode)) else Lookup(u, q)
  {
    var p := d + [n];
    var u := WithDirectory(t, p);
    forall k | 0 <= k < |p| && p[..k] in u
      ensures u[p[..k]].Dir?
    {
      AncestorsAreDirectories(u, p, p[..k]);
    }
  }
}
