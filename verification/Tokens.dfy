/** Substitution of ____MACKER_*____ tokens (cmd/macker/config_template.go). */
module Tokens {
  import opened Text

  /** The class [A-Za-z0-9_]. */
  predicate WordChar(c: char) {
    'a' <= c <= 'z' || 'A' <= c <= 'Z' || '0' <= c <= '9' || c == '_'
  }

  predicate Words(s: string, i: nat, e: nat) {
    e <= |s| && forall k :: i <= k < e ==> WordChar(s[k])
  }

  /** Four underscores at `k`. */
  predicate Bar(s: string, k: int) {
    0 <= k && k + 4 <= |s| && s[k] == '_' && s[k + 1] == '_' && s[k + 2] == '_' && s[k + 3] == '_'
  }

  /** `____MACKER_` at `i`. */
  predicate Opens(s: string, i: int) {
    && Bar(s, i) && i + 11 <= |s|
    && s[i + 4] == 'M' && s[i + 5] == 'A' && s[i + 6] == 'C' && s[i + 7] == 'K' && s[i + 8] == 'E' && s[i + 9] == 'R'
    && s[i + 10] == '_'
  }

  /** `s[i..e]` matches `____(MACKER_[A-Za-z0-9_]+)____`. */
  predicate IsToken(s: string, i: int, e: int) {
    0 <= i && i + 16 <= e <= |s| && Opens(s, i) && Words(s, i, e) && Bar(s, e - 4)
  }

  ghost predicate NoToken(s: string) {
    forall i, e :: !IsToken(s, i, e)
  }

  datatype Match = Match(start: nat, end: nat)

  function Key(s: string, m: Match): string
    requires IsToken(s, m.start, m.end)
  {
    s[m.start + 4..m.end - 4]
  }

  /** The longest match that starts at `i` and ends at or before `e`. */
  function Longest(s: string, i: nat, e: nat): (r: Option<nat>)
    requires e <= |s|
    ensures r.Some? ==> r.value <= e && IsToken(s, i, r.value) && forall f :: r.value < f <= e ==> !IsToken(s, i, f)
    ensures r.None? ==> forall f :: f <= e ==> !IsToken(s, i, f)
  {
    if e < i + 16 then None
    else if IsToken(s, i, e) then Some(e)
    else Longest(s, i, e - 1)
  }

  /** The leftmost match at or after `from`, as long as possible: what the regular expression engine returns. */
  function Find(s: string, from: nat): (r: Option<Match>)
    requires from <= |s|
    ensures r.Some? ==>
              && from <= r.value.start && IsToken(s, r.value.start, r.value.end)
              && (forall f :: r.value.end < f ==> !IsToken(s, r.value.start, f))
              && (forall i, f :: from <= i < r.value.start ==> !IsToken(s, i, f))
    ensures r.None? ==> forall i, f :: from <= i ==> !IsToken(s, i, f)
    decreases |s| - from
  {
    var here := Longest(s, from, |s|);
    if here.Some? then Some(Match(from, here.value))
    else if from == |s| then None
    else Find(s, from + 1)
  }

  /** `FindAllSubmatchIndex(s, -1)` from `from` on. */
  function FindAll(s: string, from: nat): (ms: seq<Match>)
    requires from <= |s|
    ensures forall m :: m in ms ==> from <= m.start && IsToken(s, m.start, m.end)
    decreases |s| - from
  {
    var first := Find(s, from);
    if first.None? then [] else [first.value] + FindAll(s, first.value.end)
  }

  /** Gaps of the text as they are, values in place of the matches. */
  function Interleave(s: string, from: nat, ms: seq<Match>, values: map<string, string>): string
    requires from <= |s| && Ordered(s, from, ms) && AllBound(s, ms, values)
    decreases |ms|
  {
    if ms == [] then s[from..]
    else s[from..ms[0].start] + values[Key(s, ms[0])] + Interleave(s, ms[0].end, ms[1..], values)
  }

  predicate Ordered(s: string, from: nat, ms: seq<Match>)
    decreases |ms|
  {
    ms != [] ==> from <= ms[0].start && IsToken(s, ms[0].start, ms[0].end) && Ordered(s, ms[0].end, ms[1..])
  }

  predicate AllBound(s: string, ms: seq<Match>, values: map<string, string>) {
    forall m :: m in ms ==> IsToken(s, m.start, m.end) && Key(s, m) in values
  }

  lemma {:induction false} FindAllOrdered(s: string, from: nat)
    requires from <= |s|
    ensures Ordered(s, from, FindAll(s, from))
    decreases |s| - from
  {
    var first := Find(s, from);
    if first.Some? {
      FindAllOrdered(s, first.value.end);
      assert FindAll(s, from)[1..] == FindAll(s, first.value.end);
    }
  }

  /** The first matched key with no value. */
  function FirstUnbound(s: string, ms: seq<Match>, values: map<string, string>): (r: Option<string>)
    requires forall m :: m in ms ==> IsToken(s, m.start, m.end)
    ensures r.None? <==> AllBound(s, ms, values)
    decreases |ms|
  {
    if ms == [] then None
    else if Key(s, ms[0]) !in values then Some(Key(s, ms[0]))
    else
      var rest := FirstUnbound(s, ms[1..], values);
      assert forall m :: m in ms <==> m == ms[0] || m in ms[1..];
      rest
  }

  datatype Replacement = Unchanged | Replaced(text: string) | NoValue(key: string)

  /** What substitution makes of a text. */
  function Replacing(s: string, values: map<string, string>): Replacement {
    var ms := FindAll(s, 0);
    FindAllOrdered(s, 0);
    if ms == [] then Unchanged
    else
      match FirstUnbound(s, ms, values)
      case Some(key) => NoValue(key)
      case None => Replaced(Interleave(s, 0, ms, values))
  }

  /** Loop state of replaceMackerConfigTokens: `output` holds the text up to `last`, `rest` is still to be done. */
  ghost predicate Pending(s: string, ms: seq<Match>, values: map<string, string>, output: string, last: nat,
        rest: seq<Match>) {
    && last <= |s| && Ordered(s, last, rest) && Ordered(s, 0, ms)
    && (forall m :: m in ms ==> IsToken(s, m.start, m.end))
    && (forall m :: m in rest ==> IsToken(s, m.start, m.end))
    && FirstUnbound(s, ms, values) == FirstUnbound(s, rest, values)
    && (AllBound(s, rest, values) ==>
          AllBound(s, ms, values) && Interleave(s, 0, ms, values) == output + Interleave(s, last, rest, values))
  }

  lemma PendingStep(s: string, ms: seq<Match>, values: map<string, string>, output: string, last: nat, rest: seq<Match>)
    requires Pending(s, ms, values, output, last, rest) && rest != [] && Key(s, rest[0]) in values
    ensures last <= rest[0].start
    ensures Pending(s, ms, values, output + s[last..rest[0].start] + values[Key(s, rest[0])], rest[0].end, rest[1..])
  {
    BoundStep(s, last, rest, values);
  }

  /** replaceMackerConfigTokens. It fails exactly when some matched key has no value, at the first such key, and
      otherwise interleaves the untouched gaps with the values. */
  method ReplaceTokens(s: string, values: map<string, string>) returns (r: Replacement)
    ensures r == Replacing(s, values)
    ensures r.NoValue? <==> !AllBound(s, FindAll(s, 0), values)
  {
    var matches := FindAll(s, 0);
    FindAllOrdered(s, 0);
    if matches == [] { return Unchanged; }
    var output: string, last: nat, rest := "", 0, matches;
    while rest != []
      invariant Pending(s, matches, values, output, last, rest)
    {
      var m := rest[0];
      var key := Key(s, m);
      if key !in values { return NoValue(key); }
      PendingStep(s, matches, values, output, last, rest);
      output := output + s[last..m.start] + values[key];
      last, rest := m.end, rest[1..];
    }
    r := Replaced(output + s[last..]);
  }

  lemma BoundStep(s: string, from: nat, ms: seq<Match>, values: map<string, string>)
    requires ms != [] && from <= |s| && Ordered(s, from, ms)
    requires forall m :: m in ms ==> IsToken(s, m.start, m.end)
    requires Key(s, ms[0]) in values
    ensures Ordered(s, ms[0].end, ms[1..])
    ensures AllBound(s, ms, values) <==> AllBound(s, ms[1..], values)
    ensures FirstUnbound(s, ms, values) == FirstUnbound(s, ms[1..], values)
    ensures AllBound(s, ms, values) ==>
              Interleave(s, from, ms, values)
              == s[from..ms[0].start] + values[Key(s, ms[0])] + Interleave(s, ms[0].end, ms[1..], values)
  {
    assert forall m :: m in ms <==> m == ms[0] || m in ms[1..];
  }

  /** The text from `k` on starts with a word-run that neither begins with '_' nor contains four of them. */
  ghost predicate Settled(s: string, k: nat) {
    && k <= |s|
    && (k < |s| ==> s[k] != '_')
    && forall j :: k <= j && Words(s, k, j + 4) ==> !Bar(s, j)
  }

  /** A greedy match takes its word-run's last bar with it. */
  lemma AfterMatch(s: string, i: nat, e: nat)
    requires IsToken(s, i, e) && forall f :: e < f ==> !IsToken(s, i, f)
    ensures Settled(s, e)
  {
    if e < |s| && s[e] == '_' {
      assert IsToken(s, i, e + 1);
    }
    forall j | e <= j && Words(s, e, j + 4) && Bar(s, j)
      ensures false
    {
      assert IsToken(s, i, j + 4);
    }
  }

  /** `s[i..e]` occurs in `t` at `i + shift`. */
  ghost predicate Occurs(s: string, i: int, e: int, t: string, shift: int) {
    && 0 <= i <= e <= |s| && 0 <= i + shift && e + shift <= |t|
    && forall x :: i <= x < e ==> s[x] == t[x + shift]
  }

  lemma OccursWords(s: string, i: int, e: int, t: string, shift: int)
    requires Occurs(s, i, e, t, shift) && Words(s, i, e)
    ensures Words(t, i + shift, e + shift)
  {
    forall k | i + shift <= k < e + shift
      ensures WordChar(t[k])
    {
      assert s[k - shift] == t[(k - shift) + shift];
    }
  }

  lemma OccursToken(s: string, i: int, e: int, t: string, shift: int)
    requires Occurs(s, i, e, t, shift) && IsToken(s, i, e)
    ensures IsToken(t, i + shift, e + shift)
  {
    OccursWords(s, i, e, t, shift);
    assert forall x :: i <= x < i + 11 ==> s[x] == t[x + shift];
    assert forall x :: e - 4 <= x < e ==> s[x] == t[x + shift];
  }

  lemma SuffixSettled(s: string, from: nat)
    requires Settled(s, from)
    ensures Settled(s[from..], 0)
  {
    var t := s[from..];
    forall j | 0 <= j && Words(t, 0, j + 4) && Bar(t, j)
      ensures false
    {
      OccursWords(t, 0, j + 4, s, from);
      assert Bar(s, j + from);
    }
  }

  /** Gap, value, rest: the head of the output is settled when the text's was. */
  lemma HeadSettled(s: string, from: nat, m: Match, value: string, rest: string)
    requires Settled(s, from) && from <= m.start && IsToken(s, m.start, m.end)
    ensures Settled(s[from..m.start] + value + rest, 0)
  {
    var out := s[from..m.start] + value + rest;
    assert s[m.start] == '_' && m.start > from;
    assert out[0] == s[from];
    assert Bar(s, m.start) && !Words(s, from, m.start + 4);
    var k :| from <= k < m.start + 4 && !WordChar(s[k]);
    assert k < m.start;
    assert out[k - from] == s[k];
    forall j | 0 <= j && Words(out, 0, j + 4) && Bar(out, j)
      ensures false
    {
      assert j + 4 <= k - from;
      assert Occurs(out, 0, j + 4, s, from);
      OccursWords(out, 0, j + 4, s, from);
      assert Bar(s, j + from);
    }
  }

  /** No bar touches the value or straddles it. */
  lemma BarsStayApart(gap: string, value: string, rest: string)
    requires '_' !in value && (rest != "" ==> rest[0] != '_')
    ensures forall k :: Bar(gap + value + rest, k) ==> k + 4 <= |gap| || |gap| + |value| <= k
  {
    var out, p, q := gap + value + rest, |gap|, |gap| + |value|;
    forall x | p <= x < q
      ensures out[x] != '_'
    {
      assert out[x] == value[x - p];
    }
    assert q < |out| ==> out[q] == rest[0];
  }

  /** Gap, value, rest: a token of the output would lie in the gap, in the rest, or across values without '_'. */
  lemma NoTokenAcross(s: string, from: nat, m: Match, value: string, rest: string)
    requires from <= m.start && IsToken(s, m.start, m.end)
    requires forall i, f :: from <= i < m.start ==> !IsToken(s, i, f)
    requires '_' !in value && NoToken(rest) && Settled(rest, 0)
    ensures NoToken(s[from..m.start] + value + rest)
  {
    BarsStayApart(s[from..m.start], value, rest);
    var out := s[from..m.start] + value + rest;
    var p := m.start - from;
    var q := p + |value|;
    forall a, c | IsToken(out, a, c)
      ensures false
    {
      if c <= p {
        assert Occurs(out, a, c, s, from);
        OccursToken(out, a, c, s, from);
      } else if a >= q {
        assert Occurs(out, a, c, rest, -q);
        OccursToken(out, a, c, rest, -q);
      } else {
        assert Occurs(out, q, c, rest, -q);
        OccursWords(out, q, c, rest, -q);
        assert Bar(rest, c - 4 - q);
      }
    }
  }

  ghost predicate NoUnderscore(s: string, ms: seq<Match>, values: map<string, string>)
    requires AllBound(s, ms, values)
  {
    forall m :: m in ms ==> '_' !in values[Key(s, m)]
  }

  lemma {:induction false} InterleavedIsClean(s: string, from: nat, values: map<string, string>)
    requires from <= |s| && Ordered(s, from, FindAll(s, from)) && AllBound(s, FindAll(s, from), values)
    requires NoUnderscore(s, FindAll(s, from), values)
    ensures NoToken(Interleave(s, from, FindAll(s, from), values))
    ensures Settled(s, from) ==> Settled(Interleave(s, from, FindAll(s, from), values), 0)
    decreases |s| - from
  {
    var first := Find(s, from);
    var ms := FindAll(s, from);
    if first.None? {
      assert ms == [];
      forall a, c | IsToken(s[from..], a, c)
        ensures false
      {
        OccursToken(s[from..], a, c, s, from);
      }
      if Settled(s, from) { SuffixSettled(s, from); }
    } else {
      var m := first.value;
      assert ms[0] == m && ms[1..] == FindAll(s, m.end);
      assert forall n :: n in ms[1..] ==> n in ms;
      InterleavedIsClean(s, m.end, values);
      AfterMatch(s, m.start, m.end);
      var rest := Interleave(s, m.end, FindAll(s, m.end), values);
      var value := values[Key(s, m)];
      NoTokenAcross(s, from, m, value, rest);
      if Settled(s, from) { HeadSettled(s, from, m, value, rest); }
    }
  }

  /** One pass is a fixpoint: when no substituted value contains '_', the output holds no token at all, so the second
      pass, whatever its values, finds nothing to change. */
  lemma SubstitutionIsOnePass(s: string, values: map<string, string>, again: map<string, string>)
    requires AllBound(s, FindAll(s, 0), values) && NoUnderscore(s, FindAll(s, 0), values)
    requires Replacing(s, values).Replaced?
    ensures NoToken(Replacing(s, values).text)
    ensures Replacing(Replacing(s, values).text, again) == Unchanged
  {
    FindAllOrdered(s, 0);
    InterleavedIsClean(s, 0, values);
  }

  /** Of a text that is one token the value is all that remains, so a value that is itself a token is found again:
      the proviso on '_' is needed. */
  lemma WholeTokenBecomesItsValue(s: string, values: map<string, string>)
    requires IsToken(s, 0, |s|) && Key(s, Match(0, |s|)) in values
    ensures Replacing(s, values) == Replaced(values[Key(s, Match(0, |s|))])
  {
    var whole := Match(0, |s|);
    assert Longest(s, 0, |s|) == Some(|s|);
    assert Find(s, 0) == Some(whole);
    assert Longest(s, |s|, |s|) == None;
    assert FindAll(s, |s|) == [];
    assert FindAll(s, 0) == [whole];
    assert FindAll(s, 0)[1..] == [];
    assert Interleave(s, |s|, [], values) == "";
  }

  /** At most one match in a word-run: two matches have a character outside the class between them. */
  lemma {:induction false} MatchesLieInDifferentRuns(s: string, from: nat, m: Match, n: Match)
    requires from <= |s| && Find(s, from) == Some(m) && Find(s, m.end) == Some(n)
    ensures !Words(s, m.end, n.start + 4)
  {
    AfterMatch(s, m.start, m.end);
  }
}
