/** What a token is and what substitution leaves, in literal terms: the text around the tokens to the last character,
    and the values in place of the tokens one after the other. */
module Substitutions {
  import opened Text
  import opened Tokens

  /** What a token looks like, spelled out. */
  ghost predicate Spelled(s: string) {
    exists k: string :: IsName(k) && s == "____MACKER_" + k + "____"
  }

  /** `[A-Za-z0-9_]+`. */
  predicate IsName(k: string) {
    && k != ""
    && forall i :: 0 <= i < |k| ==>
         'A' <= k[i] <= 'Z' || 'a' <= k[i] <= 'z' || '0' <= k[i] <= '9' || k[i] == '_'
  }

  lemma TokenIsSpelled(t: string)
    requires IsToken(t, 0, |t|)
    ensures Spelled(t)
  {
    var k := t[11..|t| - 4];
    assert t[..11] == "____MACKER_";
    assert t[|t| - 4..] == "____";
    assert t == t[..11] + k + t[|t| - 4..];
    assert IsName(k);
  }

  lemma SpelledIsToken(t: string, k: string)
    requires IsName(k) && t == "____MACKER_" + k + "____"
    ensures IsToken(t, 0, |t|)
  {
    var head := "____MACKER_";
    assert forall j :: 0 <= j < |t| ==>
      t[j] == if j < 11 then head[j] else if j < 11 + |k| then k[j - 11] else "____"[j - 11 - |k|];
    assert Opens(t, 0) by {
      assert t[..11] == head;
      assert t[0] == head[0] && t[1] == head[1] && t[2] == head[2] && t[3] == head[3] && t[4] == head[4];
      assert t[5] == head[5] && t[6] == head[6] && t[7] == head[7] && t[8] == head[8] && t[9] == head[9];
      assert t[10] == head[10];
    }
  }

  lemma TokenAlone(s: string, i: nat, e: nat)
    requires i <= e <= |s|
    ensures IsToken(s, i, e) <==> IsToken(s[i..e], 0, |s[i..e]|)
  {
    var t := s[i..e];
    var j: int := i;
    if IsToken(s, i, e) { OccursToken(s, i, e, t, -j); }
    if IsToken(t, 0, |t|) { OccursToken(t, 0, |t|, s, i); }
  }

  /** A token stands where four underscores, `MACKER_`, a name of at least one letter, digit or underscore, and four
      more underscores stand, and nowhere else. */
  lemma TokensAreSpelled(s: string, i: nat, e: nat)
    requires i <= e <= |s|
    ensures IsToken(s, i, e) <==> Spelled(s[i..e])
  {
    var t := s[i..e];
    TokenAlone(s, i, e);
    if IsToken(s, i, e) { TokenIsSpelled(t); }
    if Spelled(t) {
      var k :| IsName(k) && t == "____MACKER_" + k + "____";
      SpelledIsToken(t, k);
    }
  }

  lemma {:induction false} InterleavingItself(s: string, from: nat, ms: seq<Match>, values: map<string, string>)
    requires from <= |s| && Ordered(s, from, ms) && AllBound(s, ms, values)
    requires forall k :: k in values ==> values[k] == "____" + k + "____"
    ensures Interleave(s, from, ms, values) == s[from..]
    decreases |ms|
  {
    if ms != [] {
      var m := ms[0];
      InterleavingItself(s, m.end, ms[1..], values);
      TokenIsItsKey(s, m);
      assert s[from..] == s[from..m.start] + s[m.start..m.end] + s[m.end..];
    }
  }

  lemma SliceOfSlice(s: string, a: nat, e: nat, n: nat)
    requires a + n <= e - n && e <= |s|
    ensures s[a..e] == s[a..a + n] + s[a + n..e - n] + s[e - n..e]
  {
  }

  lemma BarIsFour(s: string, k: nat)
    requires Bar(s, k)
    ensures s[k..k + 4] == "____"
  {
  }

  lemma TokenIsItsKey(s: string, m: Match)
    requires IsToken(s, m.start, m.end)
    ensures s[m.start..m.end] == "____" + Key(s, m) + "____"
  {
    SliceOfSlice(s, m.start, m.end, 4);
    BarIsFour(s, m.start);
    BarIsFour(s, m.end - 4);
  }

  /** The text around the tokens is kept to the last character: when every name stands for its own token, substitution
      gives the text back. */
  lemma SubstitutingItselfChangesNothing(s: string, values: map<string, string>)
    requires forall k :: k in values ==> values[k] == "____" + k + "____"
    requires Replacing(s, values).Replaced?
    ensures Replacing(s, values).text == s
  {
    FindAllOrdered(s, 0);
    InterleavingItself(s, 0, FindAll(s, 0), values);
  }

  /** `found` is the first match at or after `from`, if there is one: no token starts between the two, and from where it
      starts none reaches further. */
  ghost predicate IsFirst(s: string, from: nat, found: Option<Match>) {
    match found
    case None => forall i, e :: from <= i ==> !IsToken(s, i, e)
    case Some(m) =>
      && from <= m.start && IsToken(s, m.start, m.end)
      && (forall i, e :: from <= i < m.start ==> !IsToken(s, i, e))
      && (forall e :: m.end < e ==> !IsToken(s, m.start, e))
  }

  lemma FindIsFirst(s: string, from: nat)
    requires from <= |s|
    ensures IsFirst(s, from, Find(s, from))
  {
  }

  lemma TokenFromRest(s: string, from: nat, i: int, e: int)
    requires from <= |s| && IsToken(s[from..], i, e)
    ensures IsToken(s, from + i, from + e)
  {
    OccursToken(s[from..], i, e, s, from);
  }

  lemma TokenToRest(s: string, from: nat, i: int, e: int)
    requires from <= |s| && 0 <= i && IsToken(s, from + i, from + e)
    ensures IsToken(s[from..], i, e)
  {
    var shift: int := 0 - from as int;
    OccursToken(s, from + i, from + e, s[from..], shift);
  }

  lemma TokenInRest(s: string, from: nat, i: int, e: int)
    requires from <= |s| && 0 <= i
    ensures IsToken(s[from..], i, e) <==> IsToken(s, from + i, from + e)
  {
    if IsToken(s[from..], i, e) { TokenFromRest(s, from, i, e); }
    if IsToken(s, from + i, from + e) { TokenToRest(s, from, i, e); }
  }

  /** Two first matches of the same text are one. */
  lemma FirstsAlike(s: string, from: nat, i: nat, there: Option<Match>, here: Option<Match>)
    requires from + i <= |s| && IsFirst(s[from..], i, there) && IsFirst(s, from + i, here)
    ensures here == if there.None? then None else Some(Match(there.value.start + from, there.value.end + from))
  {
    if there.Some? {
      TokenInRest(s, from, there.value.start, there.value.end);
      assert here.Some?;
    }
    if here.Some? {
      TokenInRest(s, from, here.value.start - from, here.value.end - from);
      TokenInRest(s, from, there.value.start, there.value.end);
    }
  }

  /** What substitution makes of the text from `from` on. */
  function Rest(s: string, from: nat, values: map<string, string>): Replacement
    requires from <= |s|
  {
    FindAllOrdered(s, from);
    match FirstUnbound(s, FindAll(s, from), values)
    case Some(key) => NoValue(key)
    case None => Replaced(Interleave(s, from, FindAll(s, from), values))
  }

  /** `head`, and then what became of the rest, which was `rest`. */
  function After(head: string, done: Replacement, rest: string): Replacement {
    match done
    case Unchanged => Replaced(head + rest)
    case Replaced(text) => Replaced(head + text)
    case NoValue(key) => NoValue(key)
  }

  lemma RestWithoutMatch(s: string, from: nat, values: map<string, string>)
    requires from <= |s| && Find(s, from).None?
    ensures Rest(s, from, values) == Replaced(s[from..])
  {
  }

  lemma RestAfterMatch(s: string, from: nat, values: map<string, string>, m: Match)
    requires from <= |s| && Find(s, from) == Some(m)
    ensures Rest(s, from, values)
            == if Key(s, m) !in values then NoValue(Key(s, m))
               else After(s[from..m.start] + values[Key(s, m)], Rest(s, m.end, values), s[m.end..])
  {
    var ms := FindAll(s, from);
    FindAllOrdered(s, from);
    assert ms[0] == m && ms[1..] == FindAll(s, m.end);
    if Key(s, m) in values { BoundStep(s, from, ms, values); }
  }

  lemma SameKey(s: string, from: nat, m: Match)
    requires from <= |s| && IsToken(s[from..], m.start, m.end) && IsToken(s, m.start + from, m.end + from)
    ensures Key(s, Match(m.start + from, m.end + from)) == Key(s[from..], m)
  {
    assert s[from..][m.start + 4..m.end - 4] == s[from + m.start + 4..from + m.end - 4];
  }

  /** `f(s, from)` is what comes of dealing with the match that was found from `from` on, and then with the rest. */
  predicate OneByOne(values: map<string, string>, f: (string, nat) -> Replacement, s: string, from: nat,
                     found: Option<Match>)
    requires from <= |s|
    requires found.Some? ==> from <= found.value.start && IsToken(s, found.value.start, found.value.end)
  {
    match found
    case None => f(s, from) == Replaced(s[from..])
    case Some(m) =>
      f(s, from) == if Key(s, m) !in values then NoValue(Key(s, m))
                    else After(s[from..m.start] + values[Key(s, m)], f(s, m.end), s[m.end..])
  }

  /** So it is for some first match, whichever text and wherever in it. */
  ghost predicate GoesOn(values: map<string, string>, f: (string, nat) -> Replacement, s: string, from: nat) {
    from <= |s| ==> exists found :: IsFirst(s, from, found) && OneByOne(values, f, s, from, found)
  }

  lemma RestGoesOn(values: map<string, string>, s: string, from: nat)
    ensures GoesOn(values, (s: string, from: nat) => if from <= |s| then Rest(s, from, values) else Unchanged, s, from)
  {
    if from <= |s| {
      FindIsFirst(s, from);
      var f := (s: string, from: nat) => if from <= |s| then Rest(s, from, values) else Unchanged;
      match Find(s, from)
      case None =>
        RestWithoutMatch(s, from, values);
        assert OneByOne(values, f, s, from, None);
      case Some(m) =>
        RestAfterMatch(s, from, values, m);
        assert OneByOne(values, f, s, from, Some(m));
    }
  }

  lemma SlicesAlike(s: string, from: nat, i: nat, m: Match)
    requires from + i <= |s|
    ensures s[from..][i..] == s[from + i..]
    ensures i <= m.start <= m.end <= |s| - from ==>
              s[from..][i..m.start] == s[from + i..m.start + from] && s[from..][m.end..] == s[m.end + from..]
  {
  }

  lemma StepsAlike(values: map<string, string>, f: (string, nat) -> Replacement, s: string, from: nat, i: nat, m: Match)
    requires from + i <= |s| && i <= m.start
    requires IsToken(s[from..], m.start, m.end) && IsToken(s, m.start + from, m.end + from)
    requires OneByOne(values, f, s[from..], i, Some(m))
    requires OneByOne(values, f, s, from + i, Some(Match(m.start + from, m.end + from)))
    requires f(s, from + m.end) == f(s[from..], m.end)
    ensures f(s, from + i) == f(s[from..], i)
  {
    SameKey(s, from, m);
    SlicesAlike(s, from, i, m);
  }

  lemma RestsAlike(values: map<string, string>, f: (string, nat) -> Replacement, s: string, from: nat, i: nat)
    requires from + i <= |s|
    requires OneByOne(values, f, s[from..], i, None) && OneByOne(values, f, s, from + i, None)
    ensures f(s, from + i) == f(s[from..], i)
  {
    assert s[from..][i..] == s[from + i..];
  }

  /** The same is found here and there, and dealt with. */
  predicate Alike(values: map<string, string>, f: (string, nat) -> Replacement, s: string, from: nat, i: nat,
                  there: Option<Match>, here: Option<Match>)
    requires from + i <= |s|
  {
    && (there.Some? ==> i <= there.value.start && IsToken(s[from..], there.value.start, there.value.end))
    && (here.Some? ==> from + i <= here.value.start && IsToken(s, here.value.start, here.value.end))
    && here == (if there.None? then None else Some(Match(there.value.start + from, there.value.end + from)))
    && OneByOne(values, f, s, from + i, here) && OneByOne(values, f, s[from..], i, there)
  }

  lemma NothingDealtWith(values: map<string, string>, f: (string, nat) -> Replacement, s: string, from: nat, i: nat,
                         here: Option<Match>)
    requires from + i <= |s| && Alike(values, f, s, from, i, None, here)
    ensures f(s, from + i) == f(s[from..], i)
  {
    RestsAlike(values, f, s, from, i);
  }

  lemma MatchDealtWith(values: map<string, string>, f: (string, nat) -> Replacement, s: string, from: nat, i: nat,
                       m: Match, here: Option<Match>)
    requires from + i <= |s| && Alike(values, f, s, from, i, Some(m), here)
    requires f(s, from + m.end) == f(s[from..], m.end)
    ensures f(s, from + i) == f(s[from..], i)
  {
    StepsAlike(values, f, s, from, i, m);
  }

  lemma DealtWith(values: map<string, string>, f: (string, nat) -> Replacement, s: string, from: nat, i: nat,
                  there: Option<Match>, here: Option<Match>)
    requires from + i <= |s| && Alike(values, f, s, from, i, there, here)
    requires there.Some? ==> f(s, from + there.value.end) == f(s[from..], there.value.end)
    ensures f(s, from + i) == f(s[from..], i)
  {
    match there
    case None => NothingDealtWith(values, f, s, from, i, here);
    case Some(m) => MatchDealtWith(values, f, s, from, i, m, here);
  }

  lemma FoundHereAndThere(values: map<string, string>, f: (string, nat) -> Replacement, s: string, from: nat, i: nat)
    returns (there: Option<Match>, here: Option<Match>)
    requires from + i <= |s| && forall s, from :: GoesOn(values, f, s, from)
    ensures Alike(values, f, s, from, i, there, here) && (there.Some? ==> i < there.value.end <= |s| - from)
  {
    assert GoesOn(values, f, s[from..], i) && GoesOn(values, f, s, from + i);
    there :| IsFirst(s[from..], i, there) && OneByOne(values, f, s[from..], i, there);
    here :| IsFirst(s, from + i, here) && OneByOne(values, f, s, from + i, here);
    FirstsAlike(s, from, i, there, here);
  }

  /** The rest of a text is dealt with like a text of its own. */
  lemma {:induction false} RestIsAText(values: map<string, string>, f: (string, nat) -> Replacement, s: string,
                                       from: nat, i: nat)
    requires from + i <= |s| && forall s, from :: GoesOn(values, f, s, from)
    ensures f(s, from + i) == f(s[from..], i)
    decreases |s| - from - i
  {
    var there, here := FoundHereAndThere(values, f, s, from, i);
    if there.Some? {
      RestIsAText(values, f, s, from, there.value.end);
    }
    DealtWith(values, f, s, from, i, there, here);
  }

  /** A text without a token is left alone. */
  lemma TokenFreeTextIsLeftAlone(s: string, values: map<string, string>)
    requires NoToken(s)
    ensures Replacing(s, values) == Unchanged
  {
    assert Find(s, 0).None?;
  }

  /** Otherwise substitution goes one match at a time: what precedes the first match stays, its name is replaced by its
      value, or reported if it has none, and the rest is dealt with as a text of its own. */
  lemma SubstitutionStepByStep(s: string, values: map<string, string>, m: Match)
    requires IsFirst(s, 0, Some(m))
    ensures var key := s[m.start + 4..m.end - 4];
            Replacing(s, values) == if key !in values then NoValue(key)
                                    else After(s[..m.start] + values[key], Replacing(s[m.end..], values), s[m.end..])
  {
    FindIsFirst(s, 0);
    FirstIsOne(s, 0, Find(s, 0), Some(m));
    AfterFirst(s, values, m);
  }

  lemma FirstIsOne(s: string, from: nat, a: Option<Match>, b: Option<Match>)
    requires IsFirst(s, from, a) && IsFirst(s, from, b)
    ensures a == b
  {
  }

  lemma AfterFirst(s: string, values: map<string, string>, m: Match)
    requires Find(s, 0) == Some(m)
    ensures Replacing(s, values) == if Key(s, m) !in values then NoValue(Key(s, m))
                                    else After(s[..m.start] + values[Key(s, m)], Replacing(s[m.end..], values),
                                               s[m.end..])
  {
    RestAfterMatch(s, 0, values, m);
    RestAlone(s, m.end, values);
    WholeText(s, values);
    WholeText(s[m.end..], values);
  }

  lemma RestAlone(s: string, from: nat, values: map<string, string>)
    requires from <= |s|
    ensures Rest(s, from, values) == Rest(s[from..], 0, values)
  {
    var f := (s: string, from: nat) => if from <= |s| then Rest(s, from, values) else Unchanged;
    forall s, from
      ensures GoesOn(values, f, s, from)
    {
      RestGoesOn(values, s, from);
    }
    RestIsAText(values, f, s, from, 0);
  }

  lemma WholeText(t: string, values: map<string, string>)
    ensures Find(t, 0).None? ==> Replacing(t, values) == Unchanged && Rest(t, 0, values) == Replaced(t)
    ensures Find(t, 0).Some? ==> Replacing(t, values) == Rest(t, 0, values)
  {
    if Find(t, 0).None? { RestWithoutMatch(t, 0, values); }
  }
}
