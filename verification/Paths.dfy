/** Archive member names and the paths they clean to (cmd/macker/oci.go, cleanArchivePath). */
module Paths {
  import opened Text

  type Name = string
  type Path = seq<Name>

  /** A component a file system can hold: it names one entry of its own directory and nothing else. */
  predicate RealName(n: Name) {
    n != "" && n != "." && n != ".." && '/' !in n
  }

  predicate RealPath(p: Path) {
    forall i :: 0 <= i < |p| ==> RealName(p[i])
  }

  /** A component that can be left once an archive name has been cleaned. */
  predicate PlainName(n: Name) {
    RealName(n) && '\\' !in n
  }

  predicate CleanPath(p: Path) {
    forall i :: 0 <= i < |p| ==> PlainName(p[i])
  }

  function Parent(p: Path): Path
    requires p != []
  {
    p[..|p| - 1]
  }

  function Base(p: Path): Name
    requires p != []
  {
    p[|p| - 1]
  }

  /** `strings.ReplaceAll(name, "\\", "/")`. */
  function Slashes(name: string): (s: string)
    ensures |s| == |name|
    ensures forall i :: 0 <= i < |s| ==> s[i] == if name[i] == '\\' then '/' else name[i]
  {
    if name == "" then "" else [if name[0] == '\\' then '/' else name[0]] + Slashes(name[1..])
  }

  /** One component of `path.Clean` on a relative name; `done` is what precedes it. */
  function Push(done: Path, c: Name): Path {
    if c == "" || c == "." then done
    else if c == ".." then
      if done != [] && Base(done) != ".." then Parent(done) else done + [".."]
    else done + [c]
  }

  /** `path.Clean` on a relative name, by components; the empty path stands for ".". */
  function Lexical(components: seq<Name>): Path
    decreases |components|
  {
    if components == [] then []
    else Push(Lexical(components[..|components| - 1]), components[|components| - 1])
  }

  datatype PathError = UnsafePath

  function CleanArchivePath(name: string): (r: Result<Path, PathError>)
    ensures r.Ok? ==> CleanPath(r.value)
  {
    var slashed := Slashes(name);
    if slashed == "" || slashed[0] == '/' then Err(UnsafePath)
    else
      var parts := Split(slashed, '/');
      var clean := Lexical(parts);
      NoBackslash(slashed, '/');
      LexicalShape(parts);
      if clean != [] && clean[0] == ".." then Err(UnsafePath) else Ok(clean)
  }

  lemma {:induction false} NoBackslash(s: string, sep: char)
    requires '\\' !in s
    ensures forall i :: 0 <= i < |Split(s, sep)| ==> '\\' !in Split(s, sep)[i]
  {
    if s != "" {
      NoBackslash(s[1..], sep);
    }
  }

  /** Lexical cleaning leaves ".." only at the front, and no empty or "." component. */
  lemma {:induction false} LexicalShape(components: seq<Name>)
    requires forall i :: 0 <= i < |components| ==> '/' !in components[i] && '\\' !in components[i]
    ensures forall i :: 0 <= i < |Lexical(components)| ==>
             Lexical(components)[i] == ".." || PlainName(Lexical(components)[i])
    ensures forall i, j :: 0 <= i < j < |Lexical(components)| && Lexical(components)[j] == ".." ==>
             Lexical(components)[i] == ".."
    decreases |components|
  {
    if components != [] {
      LexicalShape(components[..|components| - 1]);
    }
  }

  /** How far below where it starts a sequence of components leads; below nothing when it is negative. */
  function Depth(components: seq<Name>): int
    decreases |components|
  {
    if components == [] then 0
    else
      var c := components[|components| - 1];
      Depth(components[..|components| - 1]) + if c == "" || c == "." then 0 else if c == ".." then -1 else 1
  }

  /** The walk along the components leaves where it starts at some point. */
  ghost predicate Leaves(components: seq<Name>) {
    exists k :: 0 <= k <= |components| && Depth(components[..k]) < 0
  }

  /** The `j`-th component makes the `i`-th name of `p`: it is taken at that depth and never left again. */
  ghost predicate MakesName(components: seq<Name>, j: nat, p: Path, i: nat) {
    && j < |components| && i < |p| && components[j] == p[i] && p[i] !in ["", ".", ".."]
    && Depth(components[..j]) == i && forall k :: j < k <= |components| ==> Depth(components[..k]) > i
  }

  /** Where a walk that never leaves comes to: each name is the last one taken at its depth. */
  ghost predicate ComesTo(components: seq<Name>, p: Path) {
    |p| == Depth(components) && forall i :: 0 <= i < |p| ==> NameIsMade(components, p, i)
  }

  ghost predicate NameIsMade(components: seq<Name>, p: Path, i: nat) {
    exists j :: MakesName(components, j, p, i)
  }

  lemma DepthOfFront(front: seq<Name>, c: Name, k: nat)
    requires k <= |front|
    ensures Depth((front + [c])[..k]) == Depth(front[..k])
  {
    assert (front + [c])[..k] == front[..k];
  }

  lemma LeavesGrows(front: seq<Name>, c: Name)
    ensures Leaves(front + [c]) <==> Leaves(front) || Depth(front + [c]) < 0
  {
    var all := front + [c];
    if Leaves(front) {
      var k :| 0 <= k <= |front| && Depth(front[..k]) < 0;
      DepthOfFront(front, c, k);
    } else if Leaves(all) {
      var k :| 0 <= k <= |all| && Depth(all[..k]) < 0;
      if k <= |front| { DepthOfFront(front, c, k); } else { assert all[..k] == all; }
    } else {
      assert all[..|all|] == all;
    }
  }

  lemma MakesNameGrows(front: seq<Name>, c: Name, j: nat, p: Path, q: Path, i: nat)
    requires MakesName(front, j, p, i) && i < |q| && q[i] == p[i] && Depth(front + [c]) > i
    ensures MakesName(front + [c], j, q, i)
  {
    var all := front + [c];
    DepthOfFront(front, c, j);
    forall k | j < k <= |all|
      ensures Depth(all[..k]) > i
    {
      if k <= |front| { DepthOfFront(front, c, k); } else { assert all[..k] == all; }
    }
  }

  lemma ComesToGrows(front: seq<Name>, c: Name, p: Path)
    requires ComesTo(front, p) && Depth(front + [c]) >= 0 && ".." !in p
    ensures ComesTo(front + [c], Push(p, c)) && ".." !in Push(p, c)
  {
    var all, q := front + [c], Push(p, c);
    assert all[..|front|] == front && all[..|all|] == all;
    forall i: nat | i < |q|
      ensures NameIsMade(all, q, i)
    {
      if i < |p| {
        assert NameIsMade(front, p, i);
        var j :| MakesName(front, j, p, i);
        MakesNameGrows(front, c, j, p, q, i);
      } else {
        assert MakesName(all, |front|, q, i);
      }
    }
  }

  lemma {:induction false} LexicalWalks(components: seq<Name>)
    ensures Leaves(components) <==> Lexical(components) != [] && Lexical(components)[0] == ".."
    ensures !Leaves(components) ==> ComesTo(components, Lexical(components)) && ".." !in Lexical(components)
    decreases |components|
  {
    if components == [] {
      assert components[..0] == [];
    } else {
      var front, c := components[..|components| - 1], components[|components| - 1];
      assert components == front + [c];
      LexicalWalks(front);
      LeavesGrows(front, c);
      if !Leaves(front) {
        if Depth(components) >= 0 {
          ComesToGrows(front, c, Lexical(front));
        } else {
          EndsBelow(front, c);
        }
      } else {
        StaysOutside(front);
      }
    }
  }

  lemma EndsBelow(front: seq<Name>, c: Name)
    requires !Leaves(front) && Depth(front + [c]) < 0
    ensures Depth(front) == 0 && c == ".."
  {
    assert (front + [c])[..|front|] == front && front[..|front|] == front;
  }

  /** Once outside, a walk stays there. */
  lemma StaysOutside(front: seq<Name>)
    requires Lexical(front) != [] && Lexical(front)[0] == ".."
    ensures forall c: Name :: Push(Lexical(front), c) != [] && Push(Lexical(front), c)[0] == ".."
  {
  }

  /** Which names are refused, and what the others clean to: a name is refused if and only if it is empty, begins with a
      slash of either kind, or leads out of the root at some point, even if it comes back; otherwise it cleans to where
      it leads. */
  lemma CleaningExactly(name: string)
    ensures var parts := Split(Slashes(name), '/');
            && (CleanArchivePath(name).Err? <==> name == "" || name[0] == '/' || name[0] == '\\' || Leaves(parts))
            && (CleanArchivePath(name).Ok? ==> ComesTo(parts, CleanArchivePath(name).value))
  {
    LexicalWalks(Split(Slashes(name), '/'));
  }

  lemma {:induction false} LexicalOfClean(p: Path)
    requires CleanPath(p)
    ensures Lexical(p) == p
    decreases |p|
  {
    if p != [] {
      LexicalOfClean(Parent(p));
    }
  }

  /** `strings.Join` of a path with "/". */
  function Render(p: Path): string {
    Join(p, '/')
  }

  lemma {:induction false} RenderHasNoBackslash(p: Path)
    requires CleanPath(p)
    ensures '\\' !in Render(p)
    ensures p != [] ==> Render(p) != "" && Render(p)[0] != '/'
  {
    if |p| > 1 {
      RenderHasNoBackslash(p[1..]);
    }
  }

  lemma {:induction false} SlashesIdentity(s: string)
    requires '\\' !in s
    ensures Slashes(s) == s
  {
    if s != "" {
      SlashesIdentity(s[1..]);
    }
  }

  /** A cleaned name cleans to itself, so safePath's second pass over it changes nothing. */
  lemma CleaningIsIdempotent(name: string)
    requires CleanArchivePath(name).Ok? && CleanArchivePath(name).value != []
    ensures CleanArchivePath(Render(CleanArchivePath(name).value)) == CleanArchivePath(name)
  {
    CleanOfRendered(CleanArchivePath(name).value);
  }

  /** Cleaning inverts rendering, with or without the "/" that marks a directory header. */
  lemma CleanOfRendered(p: Path)
    requires CleanPath(p) && p != []
    ensures CleanArchivePath(Render(p)) == Ok(p)
    ensures CleanArchivePath(Render(p) + "/") == Ok(p)
  {
    RenderHasNoBackslash(p);
    LexicalOfClean(p);
    SlashesIdentity(Render(p));
    SplitOfJoin(p, '/');
    DirectoryHeaderSplits(p);
  }

  lemma DirectoryHeaderSplits(p: Path)
    requires CleanPath(p) && p != []
    ensures Slashes(Render(p) + "/") == Render(p) + "/"
    ensures Split(Render(p) + "/", '/') == p + [""]
    ensures Lexical(p + [""]) == Lexical(p)
  {
    RenderHasNoBackslash(p);
    SlashesIdentity(Render(p) + "/");
    JoinWithEmpty(p);
    SplitOfJoin(p + [""], '/');
    assert (p + [""])[..|p|] == p;
  }

  lemma {:induction false} JoinWithEmpty(p: Path)
    requires p != []
    ensures Join(p + [""], '/') == Join(p, '/') + "/"
  {
    if |p| > 1 {
      JoinWithEmpty(p[1..]);
      assert (p + [""])[1..] == p[1..] + [""];
    }
  }

  lemma CleanOfOne(n: Name)
    requires PlainName(n)
    ensures CleanArchivePath(n) == Ok([n])
    ensures CleanArchivePath(n + "/") == Ok([n])
  {
    CleanOfRendered([n]);
    assert Render([n]) == n;
  }
}
