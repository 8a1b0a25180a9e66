/** What image names stand for: defaults for what they leave out, and which of them are refused. */
module ImageNames {
  import opened Text
  import opened ImageRefs

  /** All of it is white space. */
  predicate Blanks(s: string) {
    forall i :: 0 <= i < |s| ==> Space(s[i])
  }

  lemma OneMoreBlank(s: string, m: nat)
    requires m < |s| && Space(s[0]) && Blanks(s[1..][..m])
    ensures Blanks(s[..m + 1]) && s[1..][m..] == s[m + 1..]
  {
    assert s[..m + 1] == [s[0]] + s[1..][..m];
  }

  lemma {:induction false} TrimmedLeft(s: string) returns (n: nat)
    ensures n <= |s| && TrimLeft(s) == s[n..] && Blanks(s[..n])
  {
    if s != "" && Space(s[0]) {
      var m := TrimmedLeft(s[1..]);
      n := m + 1;
      OneMoreBlank(s, m);
    } else {
      n := 0;
    }
  }

  lemma {:induction false} TrimmedRight(s: string)
    ensures Blanks(s[|TrimRight(s)|..])
  {
    if s != "" && Space(s[|s| - 1]) {
      TrimmedRight(s[..|s| - 1]);
      var n := |TrimRight(s)|;
      assert s[n..] == s[..|s| - 1][n..] + [s[|s| - 1]];
    }
  }

  lemma CutInThree(s: string, n: nat, m: nat)
    requires n <= |s| && m <= |s| - n
    ensures s == s[..n] + s[n..][..m] + s[n..][m..]
  {
  }

  /** White space is taken off both ends, all of it and nothing else. */
  lemma TrimmedExactly(s: string) returns (before: string, after: string)
    ensures s == before + TrimSpace(s) + after && Blanks(before) && Blanks(after)
    ensures TrimSpace(s) != "" ==> !Space(TrimSpace(s)[0]) && !Space(TrimSpace(s)[|TrimSpace(s)| - 1])
  {
    var n := TrimmedLeft(s);
    TrimmedRight(s[n..]);
    TrimmedEnds(s);
    CutInThree(s, n, |TrimSpace(s)|);
    before, after := s[..n], s[n..][|TrimSpace(s)|..];
  }

  /** A name of slash-separated parts, with a tag behind a colon or without one. */
  function Written(parts: seq<string>, tag: Option<string>): string {
    Join(parts, '/') + if tag.None? then "" else ":" + tag.value
  }

  predicate IsWritten(parts: seq<string>, tag: Option<string>) {
    && parts != [] && (forall i :: 0 <= i < |parts| ==> '/' !in parts[i])
    && if tag.None? then ':' !in parts[|parts| - 1] else '/' !in tag.value && ':' !in tag.value
  }

  /** The last part begins at `k`, behind the last slash. */
  ghost predicate EndsWith(s: string, k: nat, last: string) {
    k <= |s| && LastIndex(s, '/') == k - 1 && s[k..] == last
  }

  lemma EndsAlike(head: string, tail: string, k: nat, last: string)
    requires EndsWith(tail, k, last)
    ensures EndsWith(head + ['/'] + tail, |head| + 1 + k, last)
  {
    LastInTail(head + ['/'], tail, '/');
    assert (head + ['/'] + tail)[|head| + 1 + k..] == tail[k..];
  }

  lemma {:induction false} LastSlash(parts: seq<string>) returns (k: nat)
    requires parts != [] && forall i :: 0 <= i < |parts| ==> '/' !in parts[i]
    ensures EndsWith(Join(parts, '/'), k, parts[|parts| - 1])
    decreases |parts|
  {
    if |parts| == 1 {
      k := 0;
      NotFound(parts[0], '/');
    } else {
      var n := LastSlash(parts[1..]);
      k := |parts[0]| + 1 + n;
      assert parts[1..][|parts| - 2] == parts[|parts| - 1];
      EndsAlike(parts[0], Join(parts[1..], '/'), n, parts[|parts| - 1]);
    }
  }

  lemma NotFound(s: string, c: char)
    requires c !in s
    ensures LastIndex(s, c) == -1
  {
  }

  lemma LastInTail(head: string, tail: string, c: char)
    requires head != "" && head[|head| - 1] == c
    ensures LastIndex(head + tail, c) == |head| + LastIndex(tail, c)
  {
    var s, j := head + tail, LastIndex(tail, c);
    var i := LastIndex(s, c);
    assert s[|head| - 1] == c && (j >= 0 ==> s[|head| + j] == tail[j]);
    assert i >= |head| ==> s[i] == tail[i - |head|];
  }

  lemma BehindLast(s: string, c: char, k: nat)
    requires k <= |s|
    ensures LastIndex(s, c) < k <==> c !in s[k..]
  {
    var i := LastIndex(s, c);
    if i >= k { assert s[k..][i - k] == c; }
  }

  lemma CutsNoTag(parts: seq<string>)
    requires IsWritten(parts, None)
    ensures CutTag(Join(parts, '/')) == NameTag(Join(parts, '/'), "latest")
  {
    var k := LastSlash(parts);
    NoTagToCut(Join(parts, '/'), k);
  }

  lemma CutsSomeTag(name: string, tag: string)
    requires '/' !in tag && ':' !in tag
    ensures CutTag(name + (":" + tag)) == NameTag(name, tag)
  {
    CutTagBack(name, tag);
    assert name + ":" + tag == name + (":" + tag);
  }

  lemma CutsTheTag(parts: seq<string>, tag: Option<string>)
    requires IsWritten(parts, tag)
    ensures CutTag(Written(parts, tag))
            == NameTag(Join(parts, '/'), if tag.None? then "latest" else tag.value)
  {
    if tag.Some? {
      CutsSomeTag(Join(parts, '/'), tag.value);
    } else {
      CutsNoTag(parts);
      WithoutTag(parts);
    }
  }

  lemma NoTagToCut(name: string, k: nat)
    requires k <= |name| && LastIndex(name, '/') == k - 1 && ':' !in name[k..]
    ensures CutTag(name) == NameTag(name, "latest")
  {
    BehindLast(name, ':', k);
  }

  /** The first of several parts is the registry if it holds a dot or a colon or is localhost. */
  predicate Named(parts: seq<string>) {
    |parts| > 1 && ('.' in parts[0] || ':' in parts[0] || parts[0] == "localhost")
  }

  /** Otherwise the registry is docker.io. */
  function RegistryOf(parts: seq<string>): string {
    if Named(parts) then parts[0] else "docker.io"
  }

  function PathOf(parts: seq<string>): seq<string> {
    if Named(parts) then parts[1..] else parts
  }

  /** There a single part stands for one of the library's. */
  function RepositoryOf(parts: seq<string>): string {
    if RegistryOf(parts) == "docker.io" && |PathOf(parts)| == 1 then "library/" + PathOf(parts)[0]
    else Join(PathOf(parts), '/')
  }

  /** Some part other than the first and the last is empty. */
  predicate EmptyInside(path: seq<string>) {
    exists i :: 0 < i < |path| - 1 && path[i] == ""
  }

  /** At most 128 letters, digits, dots, dashes and underscores, and no dot first. */
  predicate IsTag(t: string) {
    && 1 <= |t| <= 128 && t[0] != '.'
    && forall c :: c in t ==> 'a' <= c <= 'z' || 'A' <= c <= 'Z' || '0' <= c <= '9' || c in "_.-"
  }

  /** The reference that name parts and a tag make. Refused are a path that is empty or has an empty part inside, and a
      tag that is none. */
  function RefOf(parts: seq<string>, t: string): Result<ImageRef, RefError> {
    if PathOf(parts) == [""] || EmptyInside(PathOf(parts)) then Err(Invalid)
    else if !IsTag(t) then Err(BadTag)
    else Ok(ImageRef(registry := RegistryOf(parts), repository := RepositoryOf(parts), tag := t,
                     normalized := RegistryOf(parts) + "/" + RepositoryOf(parts) + ":" + t))
  }

  lemma RegistryExactly(parts: seq<string>)
    requires parts != [] && forall i :: 0 <= i < |parts| ==> '/' !in parts[i]
    ensures SplitRegistry(Join(parts, '/')) == Location(RegistryOf(parts), Join(PathOf(parts), '/'))
  {
    SplitOfJoin(parts, '/');
  }

  lemma RepositoryExactly(registry: string, path: seq<string>)
    requires path != [] && forall i :: 0 <= i < |path| ==> '/' !in path[i]
    ensures Repository(Location(registry, Join(path, '/')))
            == if registry == "docker.io" && |path| == 1 then "library/" + path[0] else Join(path, '/')
  {
    SlashInside(path);
  }

  lemma PlainParses(n: string)
    requires Plain(n)
    ensures var cut := CutTag(n);
            Parse(n) == if cut.name == "" || cut.tag == "" then Err(Invalid) else Resolve(cut)
  {
  }

  lemma {:induction false} SlashesMeet(path: seq<string>)
    requires path != [] && forall i :: 0 <= i < |path| ==> '/' !in path[i]
    ensures DoubleSlash(Join(path, '/')) <==> EmptyInside(path)
    decreases |path|
  {
    if |path| == 1 {
      NoSlashesMeet(path[0]);
    } else {
      var rest := path[1..];
      SlashesMeet(rest);
      SlashFirst(rest);
      MeetAfter(path[0], Join(rest, '/'));
      assert EmptyInside(path) <==> EmptyInside(rest) || (|rest| > 1 && rest[0] == "") by {
        assert forall i :: 0 <= i < |rest| ==> rest[i] == path[i + 1];
        if EmptyInside(rest) { var i :| 0 < i < |rest| - 1 && rest[i] == ""; assert path[i + 1] == ""; }
        if |rest| > 1 && rest[0] == "" { assert path[1] == ""; }
      }
    }
  }

  lemma NoSlashesMeet(s: string)
    requires '/' !in s
    ensures !DoubleSlash(s)
  {
  }

  lemma SlashFirst(path: seq<string>)
    requires path != [] && forall i :: 0 <= i < |path| ==> '/' !in path[i]
    ensures Join(path, '/') != "" && Join(path, '/')[0] == '/' <==> |path| > 1 && path[0] == ""
  {
    if |path| > 1 && path[0] == "" {
      assert Join(path, '/')[0] == '/';
    } else if |path| > 1 {
      assert Join(path, '/')[0] == path[0][0];
    }
  }

  /** Slashes meet behind `part` where they meet in what follows, or where that begins with one. */
  lemma MeetAfter(part: string, rest: string)
    requires '/' !in part
    ensures DoubleSlash(part + ['/'] + rest) <==> DoubleSlash(rest) || (rest != "" && rest[0] == '/')
  {
    var s := part + ['/'] + rest;
    if DoubleSlash(s) {
      var i :| 0 <= i < |s| - 1 && s[i] == '/' && s[i + 1] == '/';
      MeetBehind(part, rest, i);
    }
    if DoubleSlash(rest) || (rest != "" && rest[0] == '/') { MeetsAgain(part, rest); }
  }

  lemma MeetBehind(part: string, rest: string, i: nat)
    requires '/' !in part && i <= |part| + |rest| - 1
    requires var s := part + ['/'] + rest; s[i] == '/' && s[i + 1] == '/'
    ensures DoubleSlash(rest) || (rest != "" && rest[0] == '/')
  {
    var s, n := part + ['/'] + rest, |part|;
    assert forall k :: 0 <= k < n ==> s[k] == part[k];
    if i > n { assert rest[i - n - 1] == s[i] && rest[i - n - 1 + 1] == s[i + 1]; }
  }

  lemma MeetsAgain(part: string, rest: string)
    requires DoubleSlash(rest) || (rest != "" && rest[0] == '/')
    ensures DoubleSlash(part + ['/'] + rest)
  {
    var s, n := part + ['/'] + rest, |part|;
    if DoubleSlash(rest) {
      var i :| 0 <= i < |rest| - 1 && rest[i] == '/' && rest[i + 1] == '/';
      assert s[n + 1 + i] == '/' && s[n + 1 + i + 1] == '/';
    } else {
      assert s[n] == '/' && s[n + 1] == '/';
    }
  }

  lemma JoinIsEmpty(path: seq<string>)
    requires path != [] && forall i :: 0 <= i < |path| ==> '/' !in path[i]
    ensures Join(path, '/') == "" <==> path == [""]
  {
    if |path| > 1 { SlashInside(path); }
  }

  lemma TagExactly(t: string)
    ensures ValidTag(t) <==> IsTag(t)
  {
    if IsTag(t) {
      forall i | 0 <= i < |t|
        ensures TagChar(t[i])
      {
        assert t[i] in t;
      }
    }
  }

  lemma ResolvesAt(cut: NameTag, at: Location, repository: string)
    requires SplitRegistry(cut.name) == at && Repository(at) == repository
    ensures Resolve(cut) == if at.path == "" || DoubleSlash(at.path) then Err(Invalid)
                            else if !ValidTag(cut.tag) then Err(BadTag)
                            else Ok(ImageRef(registry := at.registry, repository := repository, tag := cut.tag,
                                             normalized := at.registry + "/" + repository + ":" + cut.tag))
  {
  }

  lemma ResolvesTo(parts: seq<string>, t: string)
    requires parts != [] && forall i :: 0 <= i < |parts| ==> '/' !in parts[i]
    ensures Resolve(NameTag(Join(parts, '/'), t)) == RefOf(parts, t)
  {
    RegistryExactly(parts);
    RepositoryExactly(RegistryOf(parts), PathOf(parts));
    SlashesMeet(PathOf(parts));
    JoinIsEmpty(PathOf(parts));
    TagExactly(t);
    var at := Location(RegistryOf(parts), Join(PathOf(parts), '/'));
    ResolvesAt(NameTag(Join(parts, '/'), t), at, RepositoryOf(parts));
  }

  /** What a name means: without a tag the tag is latest, and apart from an empty name or tag it is the reference of its
      parts. */
  lemma NameExactly(parts: seq<string>, tag: Option<string>)
    requires IsWritten(parts, tag) && Plain(Written(parts, tag))
    ensures var t := if tag.None? then "latest" else tag.value;
            Parse(Written(parts, tag)) == if Join(parts, '/') == "" || t == "" then Err(Invalid) else RefOf(parts, t)
  {
    CutsTheTag(parts, tag);
    PlainParses(Written(parts, tag));
    ResolvesTo(parts, if tag.None? then "latest" else tag.value);
  }

  lemma SlashInside(path: seq<string>)
    requires path != [] && forall i :: 0 <= i < |path| ==> '/' !in path[i]
    ensures '/' in Join(path, '/') <==> |path| > 1
  {
    if |path| > 1 {
      assert Join(path, '/')[|path[0]|] == '/';
    }
  }

  lemma WrittenWithTag(s: string, colon: nat)
    requires colon == LastIndex(s, ':') > LastIndex(s, '/')
    ensures IsWritten(Split(s[..colon], '/'), Some(s[colon + 1..]))
    ensures Written(Split(s[..colon], '/'), Some(s[colon + 1..])) == s
  {
    BehindLast(s, '/', colon + 1);
    BehindLast(s, ':', colon + 1);
    JoinOfSplit(s[..colon], '/');
    TagBehindColon(s, colon);
  }

  lemma NoColonInLast(parts: seq<string>)
    requires parts != [] && forall i :: 0 <= i < |parts| ==> '/' !in parts[i]
    requires var s := Join(parts, '/'); LastIndex(s, ':') <= LastIndex(s, '/') || LastIndex(s, ':') == -1
    ensures ':' !in parts[|parts| - 1]
  {
    var k := LastSlash(parts);
    BehindLast(Join(parts, '/'), ':', k);
  }

  lemma WithoutTag(parts: seq<string>)
    ensures Written(parts, None) == Join(parts, '/')
  {
  }

  lemma JoinedIsWritten(parts: seq<string>)
    requires parts != [] && forall i :: 0 <= i < |parts| ==> '/' !in parts[i]
    requires var s := Join(parts, '/'); LastIndex(s, ':') <= LastIndex(s, '/') || LastIndex(s, ':') == -1
    ensures IsWritten(parts, None) && Written(parts, None) == Join(parts, '/')
  {
    NoColonInLast(parts);
    WithoutTag(parts);
  }

  lemma WrittenWithoutTag(s: string)
    requires LastIndex(s, ':') <= LastIndex(s, '/') || LastIndex(s, ':') == -1
    ensures IsWritten(Split(s, '/'), None) && Written(Split(s, '/'), None) == s
  {
    JoinOfSplit(s, '/');
    JoinedIsWritten(Split(s, '/'));
  }

  /** Every text is written in one such way, so the lemma above speaks of every text. */
  lemma EveryNameIsWritten(s: string) returns (parts: seq<string>, tag: Option<string>)
    ensures IsWritten(parts, tag) && Written(parts, tag) == s
  {
    var colon := LastIndex(s, ':');
    if colon > LastIndex(s, '/') {
      parts, tag := Split(s[..colon], '/'), Some(s[colon + 1..]);
      WrittenWithTag(s, colon);
    } else {
      parts, tag := Split(s, '/'), None;
      WrittenWithoutTag(s);
    }
  }

  lemma TagBehindColon(s: string, colon: nat)
    requires colon < |s| && s[colon] == ':'
    ensures s == s[..colon] + (":" + s[colon + 1..])
  {
  }

  lemma SchemeExactly(s: string)
    ensures HasScheme(s) <==> Contains(s, "://")
  {
    if HasScheme(s) {
      var i :| 0 <= i < |s| - 2 && s[i] == ':' && s[i + 1] == '/' && s[i + 2] == '/';
      assert "://" <= s[i..];
    }
    if Contains(s, "://") {
      var i :| 0 <= i <= |s| && "://" <= s[i..];
      assert s[i..][0] == ':' && s[i..][1] == '/' && s[i..][2] == '/';
      assert s[i] == ':' && s[i + 1] == '/' && s[i + 2] == '/';
    }
  }

  /** Before that a text is refused when nothing but white space is in it, and when it has a scheme or a digest. Any
      other goes on trimmed. */
  lemma RefusedAtOnce(raw: string)
    ensures TrimSpace(raw) == "" ==> Parse(raw) == Err(Blank)
    ensures TrimSpace(raw) != "" && (Contains(TrimSpace(raw), "://") || '@' in TrimSpace(raw)) ==>
              Parse(raw) == Err(RefError.Unsupported)
    ensures TrimSpace(raw) != "" && !Contains(TrimSpace(raw), "://") && '@' !in TrimSpace(raw) ==>
              Plain(TrimSpace(raw)) && Parse(raw) == Parse(TrimSpace(raw))
  {
    TrimmedEnds(raw);
    SchemeExactly(TrimSpace(raw));
    if TrimSpace(raw) != "" { TrimIdentity(TrimSpace(raw)); }
  }
}
