/** Image references (cmd/macker/main.go, parseImageRef). */
module ImageRefs {
  import opened Text

  datatype ImageRef = ImageRef(registry: string, repository: string, tag: string, normalized: string)

  datatype RefError = Blank | Unsupported | Invalid | BadTag

  /** `unicode.IsSpace`. */
  predicate Space(c: char) {
    || '\t' <= c <= '\r' || c == ' ' || c == '\U{85}' || c == '\U{A0}' || c == '\U{1680}'
       || '\U{2000}' <= c <= '\U{200A}'
    || c == '\U{2028}' || c == '\U{2029}' || c == '\U{202F}' || c == '\U{205F}' || c == '\U{3000}'
  }

  /** `strings.TrimSpace`. */
  function TrimLeft(s: string): (t: string)
    ensures t != "" ==> !Space(t[0])
    ensures exists i :: 0 <= i <= |s| && t == s[i..]
  {
    if s == "" then
      assert s == s[0..];
      s
    else if Space(s[0]) then
      var t := TrimLeft(s[1..]);
      assert forall i :: 0 <= i <= |s| - 1 ==> s[1..][i..] == s[i + 1..];
      t
    else
      assert s == s[0..];
      s
  }

  function TrimRight(s: string): (t: string)
    ensures t != "" ==> !Space(t[|t| - 1])
    ensures |t| <= |s| && t == s[..|t|]
  {
    if s == "" then s else if Space(s[|s| - 1]) then TrimRight(s[..|s| - 1]) else s
  }

  function TrimSpace(s: string): string {
    TrimRight(TrimLeft(s))
  }

  lemma TrimmedEnds(s: string)
    ensures TrimSpace(s) != "" ==> !Space(TrimSpace(s)[0]) && !Space(TrimSpace(s)[|TrimSpace(s)| - 1])
  {
  }

  predicate TagChar(c: char) {
    'a' <= c <= 'z' || 'A' <= c <= 'Z' || '0' <= c <= '9' || c == '_' || c == '.' || c == '-'
  }

  predicate ValidTag(tag: string) {
    1 <= |tag| <= 128 && tag[0] != '.' && forall i :: 0 <= i < |tag| ==> TagChar(tag[i])
  }

  const DOCKER_HUB := "docker.io"

  /** The first path component names a registry. */
  predicate RegistryLike(part: string) {
    '.' in part || ':' in part || part == "localhost"
  }

  datatype NameTag = NameTag(name: string, tag: string)

  /** A colon after the last slash separates the tag; without one the tag is "latest". */
  function CutTag(input: string): NameTag {
    var slash, colon := LastIndex(input, '/'), LastIndex(input, ':');
    if colon > slash then NameTag(input[..colon], input[colon + 1..]) else NameTag(input, "latest")
  }

  /** The "//" test of the repository and the "://" test of the input. */
  predicate DoubleSlash(s: string) {
    exists i :: 0 <= i < |s| - 1 && s[i] == '/' && s[i + 1] == '/'
  }

  predicate HasScheme(s: string) {
    exists i :: 0 <= i < |s| - 2 && s[i] == ':' && s[i + 1] == '/' && s[i + 2] == '/'
  }

  datatype Location = Location(registry: string, path: string)

  /** The registry is the first component when that looks like one and is not alone. */
  function SplitRegistry(name: string): Location {
    var parts := Split(name, '/');
    if |parts| > 1 && RegistryLike(parts[0]) then Location(parts[0], Join(parts[1..], '/'))
    else Location(DOCKER_HUB, Join(parts, '/'))
  }

  const LIBRARY := "library/"

  function Repository(at: Location): string {
    if at.registry == DOCKER_HUB && '/' !in at.path then LIBRARY + at.path else at.path
  }

  function Print(registry: string, repository: string, tag: string): string {
    registry + "/" + repository + ":" + tag
  }

  /** What is left of parseImageRef once name and tag are apart. */
  function Resolve(cut: NameTag): Result<ImageRef, RefError> {
    var at := SplitRegistry(cut.name);
    if at.path == "" || DoubleSlash(at.path) then Err(Invalid)
    else if !ValidTag(cut.tag) then Err(BadTag)
    else Ok(ImageRef(at.registry, Repository(at), cut.tag, Print(at.registry, Repository(at), cut.tag)))
  }

  function ParseTrimmed(input: string): Result<ImageRef, RefError> {
    if input == "" then Err(Blank)
    else if HasScheme(input) || '@' in input then Err(RefError.Unsupported)
    else if CutTag(input).name == "" || CutTag(input).tag == "" then Err(Invalid)
    else Resolve(CutTag(input))
  }

  /** parseImageRef. */
  function Parse(raw: string): Result<ImageRef, RefError> {
    ParseTrimmed(TrimSpace(raw))
  }

  /** What parsing guarantees of its parts, enough to read the printed form back. */
  ghost predicate Printable(r: ImageRef) {
    && r.normalized == Print(r.registry, r.repository, r.tag)
    && r.registry != "" && '/' !in r.registry && '@' !in r.registry && RegistryLike(r.registry) && !Space(r.registry[0])
    && r.repository != "" && '@' !in r.repository && !DoubleSlash(r.repository)
    && (r.registry == DOCKER_HUB ==> '/' in r.repository)
    && (r.registry[|r.registry| - 1] == ':' ==> r.repository[0] != '/')
    && ValidTag(r.tag)
  }

  type Printed = r: ImageRef | Printable(r)
    ghost witness ImageRef("localhost", "a", "a", Print("localhost", "a", "a"))

  lemma TagCharsArePlain(tag: string)
    requires ValidTag(tag)
    ensures '/' !in tag && ':' !in tag && '@' !in tag && !Space(tag[|tag| - 1])
  {
  }

  lemma TrimIdentity(s: string)
    requires s != "" && !Space(s[0]) && !Space(s[|s| - 1])
    ensures TrimSpace(s) == s
  {
  }

  lemma {:induction false} LastIndexAt(a: string, c: char, b: string)
    requires c !in b
    ensures LastIndex(a + [c] + b, c) == |a|
    decreases |b|
  {
    var s := a + [c] + b;
    if b != "" {
      assert s[..|s| - 1] == a + [c] + b[..|b| - 1];
      LastIndexAt(a, c, b[..|b| - 1]);
    }
  }

  lemma PrintedHasNoScheme(r: Printed)
    ensures !HasScheme(r.normalized) && '@' !in r.normalized
  {
    TagCharsArePlain(r.tag);
    var n, g, p := r.normalized, |r.registry|, |r.registry| + 1 + |r.repository|;
    assert forall i :: 0 <= i < g ==> n[i] == r.registry[i];
    assert forall i :: g < i < p ==> n[i] == r.repository[i - g - 1];
    assert forall i :: p < i < |n| ==> n[i] == r.tag[i - p - 1];
    assert n[g] == '/' && n[p] == ':';
    forall i | g < i && i + 1 < p
      ensures !(n[i] == '/' && n[i + 1] == '/')
    {
      assert n[i] == r.repository[i - g - 1] && n[i + 1] == r.repository[i - g];
    }
    assert n[g - 1] == r.registry[g - 1] && n[g + 1] == r.repository[0];
  }

  lemma SplitRegistryBack(registry: string, repository: string)
    requires '/' !in registry && RegistryLike(registry)
    ensures SplitRegistry(registry + "/" + repository) == Location(registry, repository)
  {
    assert registry + "/" + repository == registry + ['/'] + repository;
    SplitAtSeparator(registry, repository, '/');
    assert ([registry] + Split(repository, '/'))[1..] == Split(repository, '/');
    JoinOfSplit(repository, '/');
  }

  lemma CutTagBack(name: string, tag: string)
    requires '/' !in tag && ':' !in tag
    ensures CutTag(name + ":" + tag) == NameTag(name, tag)
  {
    var n := name + [':'] + tag;
    assert n == name + ":" + tag;
    LastIndexAt(name, ':', tag);
    assert forall j :: |name| < j < |n| ==> n[j] == tag[j - |name| - 1];
  }

  lemma PrintedResolves(r: Printed)
    ensures Resolve(NameTag(r.registry + "/" + r.repository, r.tag)) == Ok(r)
  {
    SplitRegistryBack(r.registry, r.repository);
    assert Repository(Location(r.registry, r.repository)) == r.repository;
  }

  lemma PrintedParses(r: ImageRef)
    requires Printable(r)
    ensures Parse(r.normalized) == Ok(r)
  {
    PrintedIsPlain(r);
    PrintedIsCut(r);
    PrintedResolves(r);
    ParseSteps(r.normalized, NameTag(r.registry + "/" + r.repository, r.tag));
  }

  /** Nothing keeps the text from being cut into name and tag. */
  ghost predicate Plain(n: string) {
    TrimSpace(n) == n != "" && !HasScheme(n) && '@' !in n
  }

  ghost predicate CutsInto(n: string, cut: NameTag) {
    CutTag(n) == cut && cut.name != "" && cut.tag != ""
  }

  lemma PrintedIsPlain(r: Printed)
    ensures Plain(r.normalized)
  {
    PrintedTrims(r);
    PrintedHasNoScheme(r);
  }

  lemma PrintedIsCut(r: Printed)
    ensures CutsInto(r.normalized, NameTag(r.registry + "/" + r.repository, r.tag))
  {
    PrintedCuts(r);
    assert |r.registry + "/" + r.repository| > 0;
  }

  lemma ParseSteps(n: string, cut: NameTag)
    requires Plain(n) && CutsInto(n, cut)
    ensures Parse(n) == Resolve(cut)
  {
  }

  lemma PrintedCuts(r: Printed)
    ensures CutTag(r.normalized) == NameTag(r.registry + "/" + r.repository, r.tag)
  {
    TagCharsArePlain(r.tag);
    CutTagBack(r.registry + "/" + r.repository, r.tag);
  }

  lemma PrintedTrims(r: Printed)
    ensures TrimSpace(r.normalized) == r.normalized != ""
  {
    var n := r.normalized;
    TagCharsArePlain(r.tag);
    assert n[0] == r.registry[0] && n[|n| - 1] == r.tag[|r.tag| - 1];
    TrimIdentity(n);
  }

  lemma TagCutKeeps(input: string, cut: NameTag)
    requires input != "" && cut == CutTag(input)
    ensures cut.name == input[..|cut.name|]
    ensures '@' !in input ==> '@' !in cut.name
    ensures !HasScheme(input) ==> !HasScheme(cut.name)
  {
    var name := cut.name;
    assert name == input[..|name|];
    if !HasScheme(input) {
      forall i | 0 <= i < |name| - 2
        ensures !(name[i] == ':' && name[i + 1] == '/' && name[i + 2] == '/')
      {
        assert input[i] == name[i] && input[i + 1] == name[i + 1] && input[i + 2] == name[i + 2];
      }
    }
  }

  /** The library prefix adds no slash where there was one, and none at the front. */
  lemma LibraryPrefix(path: string)
    requires path != "" && '/' !in path
    ensures !DoubleSlash(LIBRARY + path) && '/' in LIBRARY + path && (LIBRARY + path)[0] != '/'
    ensures '@' !in path ==> '@' !in LIBRARY + path
  {
    var s := LIBRARY + path;
    assert s[7] == '/';
    assert forall i :: 8 <= i < |s| ==> s[i] == path[i - 8];
    assert '@' !in LIBRARY;
  }

  /** The parts of a name: the registry usable, the path plain, and no scheme across the two. */
  ghost predicate Located(at: Location) {
    && at.registry != "" && '/' !in at.registry && '@' !in at.registry && RegistryLike(at.registry)
    && !Space(at.registry[0])
    && '@' !in at.path
    && (at.path != "" && at.registry[|at.registry| - 1] == ':' ==> at.path[0] != '/')
  }

  lemma NameIsLocated(name: string)
    requires name != "" && '@' !in name && !HasScheme(name) && !Space(name[0])
    ensures Located(SplitRegistry(name))
  {
    var parts := Split(name, '/');
    JoinOfSplit(name, '/');
    if |parts| > 1 && RegistryLike(parts[0]) {
      var registry, path := parts[0], Join(parts[1..], '/');
      assert name == registry + "/" + path;
      assert forall i :: 0 <= i < |registry| ==> name[i] == registry[i];
      assert forall i :: 0 <= i < |path| ==> name[|registry| + 1 + i] == path[i];
      var k := |registry| - 1;
      assert path != "" ==> name[k] == registry[k] && name[k + 1] == '/' && name[k + 2] == path[0];
    } else {
      HubIsLocated();
    }
  }

  lemma HubIsLocated()
    ensures '.' in DOCKER_HUB && '/' !in DOCKER_HUB && '@' !in DOCKER_HUB && DOCKER_HUB != "" && !Space(DOCKER_HUB[0])
    ensures RegistryLike(DOCKER_HUB) && DOCKER_HUB[|DOCKER_HUB| - 1] != ':'
  {
    assert DOCKER_HUB[6] == '.';
  }

  lemma ResolvedIsPrintable(cut: NameTag)
    requires Located(SplitRegistry(cut.name)) && Resolve(cut).Ok?
    ensures Printable(Resolve(cut).value)
  {
    var at := SplitRegistry(cut.name);
    if '/' !in at.path {
      LibraryPrefix(at.path);
    }
  }

  lemma ParsedIsPrintable(raw: string)
    requires Parse(raw).Ok?
    ensures Printable(Parse(raw).value)
  {
    var input := TrimSpace(raw);
    TrimmedEnds(raw);
    var cut := CutTag(input);
    TagCutKeeps(input, cut);
    assert cut.name[0] == input[0];
    NameIsLocated(cut.name);
    ResolvedIsPrintable(cut);
  }

  /** The round trip: what an accepted reference prints as is accepted again, as the very same reference. */
  lemma NormalizedParsesBack(raw: string)
    requires Parse(raw).Ok?
    ensures Parse(Parse(raw).value.normalized) == Parse(raw)
  {
    ParsedIsPrintable(raw);
    PrintedParses(Parse(raw).value);
  }

  /** The printed form is a faithful key: references that print alike are alike, so the layout directory and the
      scratch decision that `exec` derives from recorded metadata are those `run` used. */
  lemma NormalizedIsAKey(a: string, b: string)
    requires Parse(a).Ok? && Parse(b).Ok? && Parse(a).value.normalized == Parse(b).value.normalized
    ensures Parse(a) == Parse(b)
  {
    NormalizedParsesBack(a);
    NormalizedParsesBack(b);
  }
}
