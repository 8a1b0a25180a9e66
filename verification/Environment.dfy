/** Environments as lists of NAME=VALUE entries: merging (cmd/macker/oci.go), the values substitution reads
    (cmd/macker/config_template.go) and the network variables a run adds (cmd/macker/network.go). */
module Environment {
  import opened Text
  import opened Network

  type Env = seq<string>

  datatype Binding = Binding(key: string, value: string)

  /** `strings.Cut(entry, "=")`. */
  function Cut(entry: string): (r: Option<Binding>)
    ensures r.Some? ==> '=' !in r.value.key && entry == r.value.key + "=" + r.value.value
    ensures r.None? <==> '=' !in entry
  {
    if entry == "" then None
    else if entry[0] == '=' then Some(Binding("", entry[1..]))
    else
      match Cut(entry[1..])
      case None => None
      case Some(b) => Some(Binding([entry[0]] + b.key, b.value))
  }

  lemma CutStep(entry: string, b: Binding)
    requires entry != "" && entry[0] != '=' && Cut(entry[1..]) == Some(b)
    ensures Cut(entry) == Some(Binding([entry[0]] + b.key, b.value))
  {
  }

  lemma {:induction false} CutAt(key: string, tail: string)
    requires '=' !in key && tail != "" && tail[0] == '='
    ensures Cut(key + tail) == Some(Binding(key, tail[1..]))
  {
    if key == "" {
      assert key + tail == tail;
    } else {
      assert (key + tail)[1..] == key[1..] + tail;
      CutAt(key[1..], tail);
      CutStep(key + tail, Binding(key[1..], tail[1..]));
      assert [key[0]] + key[1..] == key;
    }
  }

  lemma CutOfPrinted(key: string, value: string)
    requires '=' !in key
    ensures Cut(key + "=" + value) == Some(Binding(key, value))
  {
    assert key + "=" + value == key + ("=" + value);
    assert ("=" + value)[1..] == value;
    CutAt(key, "=" + value);
  }

  predicate Binds(entry: string, key: string) {
    Cut(entry).Some? && Cut(entry).value.key == key
  }

  /** The last-wins reading of an environment, which is the one `exec` gives a process. */
  function Lookup(env: Env, key: string): Option<string>
    decreases |env|
  {
    if env == [] then None
    else if Binds(env[|env| - 1], key) then Some(Cut(env[|env| - 1]).value.value)
    else Lookup(env[..|env| - 1], key)
  }

  /** The last entry that binds `key`, or -1. */
  function LastBinding(env: Env, key: string): (i: int)
    ensures -1 <= i < |env|
    ensures i >= 0 ==> Binds(env[i], key)
    decreases |env|
  {
    if env == [] then -1
    else if Binds(env[|env| - 1], key) then |env| - 1
    else LastBinding(env[..|env| - 1], key)
  }

  lemma {:induction false} LookupIsLastBinding(env: Env, key: string)
    ensures Lookup(env, key)
            == if LastBinding(env, key) < 0 then None else Some(Cut(env[LastBinding(env, key)]).value.value)
    decreases |env|
  {
    if env != [] && !Binds(env[|env| - 1], key) {
      LookupIsLastBinding(env[..|env| - 1], key);
    }
  }

  lemma {:induction false} LookupConcat(a: Env, b: Env, key: string)
    ensures Lookup(a + b, key) == if Lookup(b, key).Some? then Lookup(b, key) else Lookup(a, key)
    decreases |b|
  {
    if b == [] {
      assert a + b == a;
    } else {
      var e := b[|b| - 1];
      assert (a + b)[..|a + b| - 1] == a + b[..|b| - 1] && (a + b)[|a + b| - 1] == e;
      LookupConcat(a, b[..|b| - 1], key);
    }
  }

  /** An override that counts: it has a "=" and a name before it. */
  predicate Usable(entry: string) {
    Cut(entry).Some? && Cut(entry).value.key != ""
  }

  /** One override: in place of the last entry of that name, or at the end. */
  function Put(env: Env, entry: string): Env {
    if !Usable(entry) then env
    else
      var i := LastBinding(env, Cut(entry).value.key);
      if i >= 0 then env[i := entry] else env + [entry]
  }

  function Merge(base: Env, overrides: Env): Env
    decreases |overrides|
  {
    if overrides == [] then base else Put(Merge(base, overrides[..|overrides| - 1]), overrides[|overrides| - 1])
  }

  /** The index map mergeEnvironment keeps beside the list. */
  ghost predicate Indexed(env: Env, indexes: map<string, nat>) {
    && (forall k :: k in indexes ==> indexes[k] < |env| && LastBinding(env, k) == indexes[k])
    && (forall k :: k !in indexes ==> LastBinding(env, k) < 0)
  }

  lemma LastBindingAppend(env: Env, entry: string, key: string)
    ensures LastBinding(env + [entry], key) == if Binds(entry, key) then |env| else LastBinding(env, key)
  {
    assert (env + [entry])[..|env|] == env;
  }

  lemma IndexedAppend(env: Env, indexes: map<string, nat>, entry: string)
    requires Indexed(env, indexes)
    ensures Cut(entry).Some? ==> Indexed(env + [entry], indexes[Cut(entry).value.key := |env|])
    ensures Cut(entry).None? ==> Indexed(env + [entry], indexes)
  {
    var longer := env + [entry];
    var grown := if Cut(entry).Some? then indexes[Cut(entry).value.key := |env|] else indexes;
    forall k: string
      ensures k in grown ==> grown[k] < |longer| && LastBinding(longer, k) == grown[k]
      ensures k !in grown ==> LastBinding(longer, k) < 0
    {
      LastBindingAppend(env, entry, k);
    }
  }

  lemma {:induction false} LastBindingUpdate(env: Env, i: nat, entry: string, key: string)
    requires i < |env| && Cut(entry).Some? && Binds(env[i], Cut(entry).value.key)
    ensures LastBinding(env[i := entry], key) == LastBinding(env, key)
    decreases |env|
  {
    var n := |env| - 1;
    if i < n {
      assert env[i := entry][..n] == env[..n][i := entry];
      LastBindingUpdate(env[..n], i, entry, key);
    } else {
      assert env[i := entry][..n] == env[..n];
    }
  }

  lemma IndexedUpdate(env: Env, indexes: map<string, nat>, entry: string)
    requires Indexed(env, indexes) && Cut(entry).Some? && Cut(entry).value.key in indexes
    ensures Indexed(env[indexes[Cut(entry).value.key] := entry], indexes)
  {
    forall k: string
      ensures LastBinding(env[indexes[Cut(entry).value.key] := entry], k) == LastBinding(env, k)
    {
      LastBindingUpdate(env, indexes[Cut(entry).value.key], entry, k);
    }
  }

  lemma IndexedOneMore(env: Env, i: nat, indexes: map<string, nat>)
    requires i < |env| && Indexed(env[..i], indexes)
    ensures Indexed(env[..i + 1], if Cut(env[i]).Some? then indexes[Cut(env[i]).value.key := i] else indexes)
  {
    IndexedAppend(env[..i], indexes, env[i]);
    assert env[..i] + [env[i]] == env[..i + 1];
  }

  lemma NothingIndexed(env: Env)
    ensures Indexed(env[..0], map[])
  {
  }

  /** The first loop of mergeEnvironment: where each name is last bound. */
  method IndexEntries(env: Env) returns (indexes: map<string, nat>)
    ensures Indexed(env, indexes)
  {
    indexes := map[];
    NothingIndexed(env);
    var i := 0;
    while i < |env|
      invariant 0 <= i <= |env|
      invariant Indexed(env[..i], indexes)
    {
      IndexedOneMore(env, i, indexes);
      var cut := Cut(env[i]);
      if cut.Some? { indexes := indexes[cut.value.key := i]; }
      i := i + 1;
    }
    assert env[..i] == env;
  }

  /** mergeEnvironment, with its index map. */
  method MergeEnvironment(base: Env, overrides: Env) returns (result: Env)
    ensures result == Merge(base, overrides)
  {
    var indexes := IndexEntries(base);
    result := base;
    var i := 0;
    while i < |overrides|
      invariant 0 <= i <= |overrides|
      invariant Indexed(result, indexes) && result == Merge(base, overrides[..i])
    {
      assert overrides[..i + 1][..i] == overrides[..i];
      result, indexes := PutIndexed(result, indexes, overrides[i]);
      i := i + 1;
    }
    assert overrides[..i] == overrides;
  }

  /** The body of the second loop. */
  method PutIndexed(env: Env, indexes: map<string, nat>, value: string) returns (env': Env, indexes': map<string, nat>)
    requires Indexed(env, indexes)
    ensures env' == Put(env, value) && Indexed(env', indexes')
  {
    env', indexes' := env, indexes;
    var cut := Cut(value);
    if cut.None? || cut.value.key == "" { return; }
    var key := cut.value.key;
    if key in indexes {
      IndexedUpdate(env, indexes, value);
      env' := env[indexes[key] := value];
    } else {
      IndexedAppend(env, indexes, value);
      env', indexes' := env + [value], indexes[key := |env|];
    }
  }

  lemma LookupPut(env: Env, entry: string, key: string)
    ensures Lookup(Put(env, entry), key)
            == if Usable(entry) && Binds(entry, key) then Some(Cut(entry).value.value) else Lookup(env, key)
  {
    if Usable(entry) {
      var name := Cut(entry).value.key;
      var i := LastBinding(env, name);
      LookupIsLastBinding(Put(env, entry), key);
      LookupIsLastBinding(env, key);
      if i >= 0 {
        LastBindingUpdate(env, i, entry, key);
      } else {
        assert (env + [entry])[..|env|] == env;
        LookupConcat(env, [entry], key);
        assert Lookup([entry][..0], key) == None;
      }
    }
  }

  /** Merging is overriding, under the last-wins reading, even when the base binds a name twice. */
  lemma {:induction false} MergeOverrides(base: Env, overrides: Env, key: string)
    ensures Lookup(Merge(base, overrides), key)
            == if key != "" && Lookup(overrides, key).Some? then Lookup(overrides, key) else Lookup(base, key)
    decreases |overrides|
  {
    if overrides != [] {
      var front, e := overrides[..|overrides| - 1], overrides[|overrides| - 1];
      MergeOverrides(base, front, key);
      LookupPut(Merge(base, front), e, key);
    }
  }

  /** Merging twice is merging once with both override lists, entry for entry. */
  lemma {:induction false} MergeTwice(base: Env, x: Env, y: Env)
    ensures Merge(Merge(base, x), y) == Merge(base, x + y)
    decreases |y|
  {
    if y == [] {
      assert x + y == x;
    } else {
      var both := x + y;
      MergeTwice(base, x, y[..|y| - 1]);
      assert both[..|both| - 1] == x + y[..|y| - 1];
    }
  }

  const PREFIX: string := "MACKER_"

  /** mackerEnvironmentValues: later entries overwrite earlier ones. */
  method MackerEnvironmentValues(env: Env) returns (values: map<string, string>)
    ensures forall k :: k in values <==> "MACKER_" <= k && Lookup(env, k).Some?
    ensures forall k :: k in values ==> Lookup(env, k) == Some(values[k])
  {
    values := map[];
    var i := 0;
    while i < |env|
      invariant 0 <= i <= |env|
      invariant forall k :: k in values <==> PREFIX <= k && Lookup(env[..i], k).Some?
      invariant forall k :: k in values ==> Lookup(env[..i], k) == Some(values[k])
    {
      assert env[..i + 1][..i] == env[..i];
      var cut := Cut(env[i]);
      if cut.Some? && PREFIX <= cut.value.key {
        values := values[cut.value.key := cut.value.value];
      }
      i := i + 1;
    }
    assert env[..i] == env;
  }

  function PortKey(index: nat): string {
    "MACKER_PORT_" + Decimal(index + 1)
  }

  const INTERFACE_KEY := "MACKER_INTERFACE"
  const IP_KEY := "MACKER_IP"
  const HOST_INTERFACE_KEY := "MACKER_HOST_INTERFACE"
  const HOST_IP_KEY := "MACKER_HOST_IP"

  /** The names a run's network defines, in the order of its arguments. */
  function NetworkKeys(count: nat): seq<string> {
    if count == 0 then [INTERFACE_KEY, IP_KEY, HOST_INTERFACE_KEY, HOST_IP_KEY]
    else NetworkKeys(count - 1) + [PortKey(count - 1)]
  }

  /** networkEnvironmentValues. */
  function NetworkValues(net: NetConfig, ports: seq<PortMapping>): (values: map<string, string>)
    ensures forall k :: k in values <==> k in NetworkKeys(|ports|)
    decreases |ports|
  {
    if ports == [] then
      map[INTERFACE_KEY := net.iface, IP_KEY := net.ip,
          HOST_INTERFACE_KEY := net.hostInterface, HOST_IP_KEY := net.hostIP]
    else
      var last := |ports| - 1;
      NetworkValues(net, ports[..last])[PortKey(last) := Decimal(ports[last].nodePort as nat)]
  }

  function PrintAll(values: map<string, string>, keys: seq<string>): (args: Env)
    requires forall k :: k in keys ==> k in values
    ensures |args| == |keys| && forall i :: 0 <= i < |keys| ==> args[i] == keys[i] + "=" + values[keys[i]]
  {
    if keys == [] then [] else [keys[0] + "=" + values[keys[0]]] + PrintAll(values, keys[1..])
  }

  /** networkEnvironmentArgs, without the "--env" flags between the entries. */
  function NetworkArgs(net: NetConfig, ports: seq<PortMapping>): Env {
    PrintAll(NetworkValues(net, ports), NetworkKeys(|ports|))
  }

  lemma PortKeyIsPlain(index: nat)
    ensures '=' !in PortKey(index) && PREFIX <= PortKey(index)
  {
    assert '=' !in "MACKER_PORT_";
    assert forall c :: c in Decimal(index + 1) ==> c in DIGITS;
  }

  lemma {:induction false} NetworkKeysArePlain(count: nat)
    ensures forall k :: k in NetworkKeys(count) ==> '=' !in k && PREFIX <= k
  {
    if count == 0 {
      assert '=' !in INTERFACE_KEY && '=' !in IP_KEY && '=' !in HOST_INTERFACE_KEY && '=' !in HOST_IP_KEY;
    } else {
      NetworkKeysArePlain(count - 1);
      PortKeyIsPlain(count - 1);
    }
  }

  /** Printing and reading back: last-wins lookup in printed entries gives the map's own values. */
  lemma {:induction false} LookupPrinted(values: map<string, string>, keys: seq<string>, key: string)
    requires forall k :: k in keys ==> k in values && '=' !in k
    ensures Lookup(PrintAll(values, keys), key) == if key in keys then Some(values[key]) else None
    decreases |keys|
  {
    if keys != [] {
      var front, k := keys[..|keys| - 1], keys[|keys| - 1];
      var args := PrintAll(values, keys);
      assert keys == front + [k];
      assert args[..|args| - 1] == PrintAll(values, front);
      LookupPrinted(values, front, key);
      CutOfPrinted(k, values[k]);
    }
  }

  /** The network's own values never contain '_', so on them a substitution pass is final. */
  lemma {:induction false} NetworkValuesAreClean(net: NetConfig, ports: seq<PortMapping>)
    requires '_' !in net.iface && '_' !in net.ip && '_' !in net.hostInterface && '_' !in net.hostIP
    ensures forall k :: k in NetworkValues(net, ports) ==> '_' !in NetworkValues(net, ports)[k]
    decreases |ports|
  {
    if ports != [] {
      var last := |ports| - 1;
      NetworkValuesAreClean(net, ports[..last]);
      assert forall c :: c in Decimal(ports[last].nodePort as nat) ==> c in DIGITS;
    }
  }

  /** What the first substitution pass sees: the run's own variables, then the network's over them. */
  method RuntimeEnvironment(rawEnv: Env, net: NetConfig, ports: seq<PortMapping>) returns (values: map<string, string>)
    ensures values == Runtime(rawEnv, net, ports)
  {
    values := map[];
    var i := 0;
    while i < |rawEnv|
      invariant 0 <= i <= |rawEnv|
      invariant forall k :: k in values <==> k != "" && Lookup(rawEnv[..i], k).Some?
      invariant forall k :: k in values ==> Lookup(rawEnv[..i], k) == Some(values[k])
    {
      assert rawEnv[..i + 1][..i] == rawEnv[..i];
      var cut := Cut(rawEnv[i]);
      if cut.Some? && cut.value.key != "" {
        values := values[cut.value.key := cut.value.value];
      }
      i := i + 1;
    }
    assert rawEnv[..i] == rawEnv;
    KeysOfEnv(rawEnv);
    assert values == OwnVariables(rawEnv);
    values := values + NetworkValues(net, ports);
  }

  function Names(env: Env): set<string> {
    set i | 0 <= i < |env| && Cut(env[i]).Some? :: Cut(env[i]).value.key
  }

  lemma {:induction false} BoundIsFound(env: Env, i: nat, key: string)
    requires i < |env| && Binds(env[i], key)
    ensures Lookup(env, key).Some?
    decreases |env|
  {
    if i < |env| - 1 {
      BoundIsFound(env[..|env| - 1], i, key);
    }
  }

  lemma KeysOfEnv(env: Env)
    ensures forall k :: k in Names(env) <==> Lookup(env, k).Some?
  {
    forall k: string
      ensures k in Names(env) <==> Lookup(env, k).Some?
    {
      LookupIsLastBinding(env, k);
      if i :| 0 <= i < |env| && Binds(env[i], k) {
        BoundIsFound(env, i, k);
      }
    }
  }

  function OwnVariables(env: Env): map<string, string> {
    map k | k in Names(env) && k != "" && Lookup(env, k).Some? :: Lookup(env, k).value
  }

  function Runtime(rawEnv: Env, net: NetConfig, ports: seq<PortMapping>): map<string, string> {
    OwnVariables(rawEnv) + NetworkValues(net, ports)
  }

  /** The two substitution passes agree: on every MACKER_ name the first pass knows, the environment the workload's
      own pass reads, merged over any image environment, holds the same value. */
  lemma PassesAgree(imageEnv: Env, rawEnv: Env, net: NetConfig, ports: seq<PortMapping>, key: string)
    requires PREFIX <= key && key in Runtime(rawEnv, net, ports)
    ensures Lookup(Merge(imageEnv, rawEnv + NetworkArgs(net, ports)), key)
            == Some(Runtime(rawEnv, net, ports)[key])
  {
    KeysOfEnv(rawEnv);
    MergeOverrides(imageEnv, rawEnv + NetworkArgs(net, ports), key);
    LookupConcat(rawEnv, NetworkArgs(net, ports), key);
    NetworkKeysArePlain(|ports|);
    LookupPrinted(NetworkValues(net, ports), NetworkKeys(|ports|), key);
  }

  /** Which names the first pass knows, and with what values: those of the network, and of the run's own variables those
      that have a name and that the network does not define, each with its last value. */
  lemma RuntimeExactly(rawEnv: Env, net: NetConfig, ports: seq<PortMapping>, key: string)
    ensures key in NetworkKeys(|ports|) ==>
              key in Runtime(rawEnv, net, ports) && Runtime(rawEnv, net, ports)[key] == NetworkValues(net, ports)[key]
    ensures key !in NetworkKeys(|ports|) ==>
              && (key in Runtime(rawEnv, net, ports) <==> key != "" && Lookup(rawEnv, key).Some?)
              && (key in Runtime(rawEnv, net, ports) ==> Lookup(rawEnv, key) == Some(Runtime(rawEnv, net, ports)[key]))
  {
    KeysOfEnv(rawEnv);
  }

  /** The last entry of `overrides` that counts for `key`, if there is one. */
  function LastOverride(overrides: Env, key: string): (r: Option<string>)
    decreases |overrides|
  {
    if overrides == [] then None
    else if key != "" && Binds(overrides[|overrides| - 1], key) then Some(overrides[|overrides| - 1])
    else LastOverride(overrides[..|overrides| - 1], key)
  }

  /** What stands at position `i` of the base: the last override of the name bound there, if it is the last binding of
      that name, or the entry as it was. */
  function StandsAt(base: Env, overrides: Env, i: nat): string
    requires i < |base|
  {
    match Cut(base[i])
    case None => base[i]
    case Some(b) =>
      if LastBinding(base, b.key) == i && LastOverride(overrides, b.key).Some? then LastOverride(overrides, b.key).value
      else base[i]
  }

  /** Names the overrides bind and the base does not, each where it first occurs. */
  function NewNames(base: Env, overrides: Env): seq<string>
    decreases |overrides|
  {
    if overrides == [] then []
    else
      var before, e := NewNames(base, overrides[..|overrides| - 1]), overrides[|overrides| - 1];
      if Usable(e) && LastBinding(base, Cut(e).value.key) < 0 && Cut(e).value.key !in before
      then before + [Cut(e).value.key] else before
  }

  /** The merged list, entry by entry: the base keeps its length and order, and the new names follow in the order in
      which they first occur, each once, with its last override. */
  ghost predicate InPlace(base: Env, overrides: Env, out: Env) {
    && |out| == |base| + |NewNames(base, overrides)|
    && (forall i :: 0 <= i < |base| ==> out[i] == StandsAt(base, overrides, i))
    && forall i :: 0 <= i < |NewNames(base, overrides)| ==>
         LastOverride(overrides, NewNames(base, overrides)[i]) == Some(out[|base| + i])
  }

  lemma {:induction false} LastOverrideBinds(overrides: Env, key: string)
    requires LastOverride(overrides, key).Some?
    ensures key != "" && Binds(LastOverride(overrides, key).value, key)
    decreases |overrides|
  {
    if !(key != "" && Binds(overrides[|overrides| - 1], key)) {
      LastOverrideBinds(overrides[..|overrides| - 1], key);
    }
  }

  lemma {:induction false} NewNamesAreNew(base: Env, overrides: Env)
    ensures var names := NewNames(base, overrides);
            && (forall i :: 0 <= i < |names| ==>
                  LastBinding(base, names[i]) < 0 && LastOverride(overrides, names[i]).Some?)
            && (forall i, j :: 0 <= i < j < |names| ==> names[i] != names[j])
    ensures forall key :: LastBinding(base, key) < 0 && LastOverride(overrides, key).Some? ==>
              key in NewNames(base, overrides)
    decreases |overrides|
  {
    if overrides != [] {
      var front, e := overrides[..|overrides| - 1], overrides[|overrides| - 1];
      assert overrides == front + [e];
      NewNamesAreNew(base, front);
      NewNamesGrows(base, front, e);
      forall key
        ensures LastOverride(overrides, key) == if key != "" && Binds(e, key) then Some(e) else LastOverride(front, key)
      {
        LastOverrideGrows(front, e, key);
      }
    }
  }

  /** Which entries of the merged list bind a name: those of the base that did, and the one put for it. */
  lemma BoundInMerged(base: Env, overrides: Env, out: Env, key: string, i: nat)
    requires InPlace(base, overrides, out) && i < |out|
    ensures i >= |base| ==> (Binds(out[i], key) <==> NewNames(base, overrides)[i - |base|] == key)
    ensures i < |base| ==> (Binds(out[i], key) <==> Binds(base[i], key))
  {
    if i >= |base| {
      LastOverrideBinds(overrides, NewNames(base, overrides)[i - |base|]);
    } else if Cut(base[i]).Some? && LastOverride(overrides, Cut(base[i]).value.key).Some? {
      LastOverrideBinds(overrides, Cut(base[i]).value.key);
    }
  }

  lemma LastBindingIs(env: Env, key: string, i: int)
    requires -1 <= i < |env| && (i >= 0 ==> Binds(env[i], key)) && forall j :: i < j < |env| ==> !Binds(env[j], key)
    ensures LastBinding(env, key) == i
  {
    LastBindingIsLast(env, key);
  }

  /** Where the merged list binds a name last: where the base does, if it does, or where the name is put. */
  lemma LastInMerged(base: Env, overrides: Env, out: Env, key: string)
    requires InPlace(base, overrides, out) && key !in NewNames(base, overrides)
    ensures LastBinding(out, key) == LastBinding(base, key)
  {
    forall i: nat | i < |out|
      ensures Binds(out[i], key) <==> i < |base| && Binds(base[i], key)
    {
      BoundInMerged(base, overrides, out, key, i);
    }
    LastBindingIsLast(base, key);
    LastBindingIs(out, key, LastBinding(base, key));
  }

  lemma BoundElsewhere(base: Env, overrides: Env, out: Env, n: nat, j: nat)
    requires InPlace(base, overrides, out) && n < |NewNames(base, overrides)| && |base| + n < j < |out|
    ensures !Binds(out[j], NewNames(base, overrides)[n])
  {
    BoundInMerged(base, overrides, out, NewNames(base, overrides)[n], j);
    NewNamesDiffer(base, overrides, n, j - |base|);
  }

  lemma LastInNewNames(base: Env, overrides: Env, out: Env, n: nat)
    requires InPlace(base, overrides, out) && n < |NewNames(base, overrides)|
    ensures LastBinding(out, NewNames(base, overrides)[n]) == |base| + n
  {
    var name := NewNames(base, overrides)[n];
    BoundInMerged(base, overrides, out, name, |base| + n);
    forall j | |base| + n < j < |out|
      ensures !Binds(out[j], name)
    {
      BoundElsewhere(base, overrides, out, n, j);
    }
    LastBindingIs(out, name, |base| + n);
  }

  lemma {:induction false} LastBindingIsLast(env: Env, key: string)
    ensures forall j :: LastBinding(env, key) < j < |env| ==> !Binds(env[j], key)
    decreases |env|
  {
    if env != [] && !Binds(env[|env| - 1], key) {
      LastBindingIsLast(env[..|env| - 1], key);
    }
  }

  /** Merging overrides in place: nothing in the base moves, and of a name bound twice only the last binding changes. */
  lemma {:induction false} MergeIsInPlace(base: Env, overrides: Env)
    ensures InPlace(base, overrides, Merge(base, overrides))
    decreases |overrides|
  {
    if overrides != [] {
      var front, e := overrides[..|overrides| - 1], overrides[|overrides| - 1];
      MergeIsInPlace(base, front);
      PutIsInPlace(base, front, e, Merge(base, front));
      assert overrides == front + [e];
    }
  }

  lemma LastOverrideGrows(front: Env, e: string, key: string)
    ensures LastOverride(front + [e], key) == if key != "" && Binds(e, key) then Some(e) else LastOverride(front, key)
  {
    assert (front + [e])[..|front|] == front;
  }

  lemma NewNamesGrows(base: Env, front: Env, e: string)
    ensures var before := NewNames(base, front);
            NewNames(base, front + [e])
            == if Usable(e) && LastBinding(base, Cut(e).value.key) < 0 && Cut(e).value.key !in before
               then before + [Cut(e).value.key] else before
  {
    assert (front + [e])[..|front|] == front;
  }

  /** Of the base one more override changes the last binding of its name, if there is one. */
  lemma StandsGrows(base: Env, front: Env, e: string, i: nat)
    requires i < |base|
    ensures StandsAt(base, front + [e], i)
            == if Usable(e) && LastBinding(base, Cut(e).value.key) == i then e else StandsAt(base, front, i)
  {
    if Cut(base[i]).Some? {
      LastOverrideGrows(front, e, Cut(base[i]).value.key);
    }
  }

  lemma PlaceInBase(base: Env, front: Env, e: string, out: Env)
    requires InPlace(base, front, out) && Usable(e) && LastBinding(base, Cut(e).value.key) >= 0
    ensures Cut(e).value.key !in NewNames(base, front)
    ensures Put(out, e) == out[LastBinding(base, Cut(e).value.key) := e]
  {
    NewNamesAreNew(base, front);
    LastInMerged(base, front, out, Cut(e).value.key);
  }

  lemma OverrideOfOther(front: Env, e: string, names: seq<string>)
    requires Usable(e) ==> Cut(e).value.key !in names
    ensures forall i :: 0 <= i < |names| ==> LastOverride(front + [e], names[i]) == LastOverride(front, names[i])
  {
    forall i | 0 <= i < |names|
      ensures LastOverride(front + [e], names[i]) == LastOverride(front, names[i])
    {
      LastOverrideGrows(front, e, names[i]);
    }
  }

  /** An override that is none, or whose name the base binds, leaves the new names and their entries alone. */
  lemma PutInBase(base: Env, front: Env, e: string, out: Env)
    requires InPlace(base, front, out) && (Usable(e) ==> LastBinding(base, Cut(e).value.key) >= 0)
    ensures InPlace(base, front + [e], Put(out, e))
  {
    NewNamesGrows(base, front, e);
    if Usable(e) { PlaceInBase(base, front, e, out); }
    OverrideOfOther(front, e, NewNames(base, front));
    forall i | 0 <= i < |base|
      ensures Put(out, e)[i] == StandsAt(base, front + [e], i)
    {
      StandsGrows(base, front, e, i);
    }
  }

  lemma NewNamesDiffer(base: Env, overrides: Env, i: nat, j: nat)
    requires i < |NewNames(base, overrides)| && j < |NewNames(base, overrides)| && i != j
    ensures NewNames(base, overrides)[i] != NewNames(base, overrides)[j]
  {
    NewNamesAreNew(base, overrides);
  }

  lemma PlaceOfNewName(base: Env, front: Env, e: string, out: Env, n: nat)
    requires InPlace(base, front, out) && Usable(e) && n < |NewNames(base, front)|
    requires NewNames(base, front)[n] == Cut(e).value.key
    ensures LastBinding(base, Cut(e).value.key) < 0 && NewNames(base, front + [e]) == NewNames(base, front)
    ensures Put(out, e) == out[|base| + n := e]
  {
    NewNamesAreNew(base, front);
    NewNamesGrows(base, front, e);
    LastInNewNames(base, front, out, n);
  }

  /** One for a name that is new already takes that name's place. */
  lemma PutAgain(base: Env, front: Env, e: string, out: Env, n: nat)
    requires InPlace(base, front, out) && Usable(e) && n < |NewNames(base, front)|
    requires NewNames(base, front)[n] == Cut(e).value.key
    ensures InPlace(base, front + [e], Put(out, e))
  {
    PlaceOfNewName(base, front, e, out, n);
    forall i | 0 <= i < |base|
      ensures Put(out, e)[i] == StandsAt(base, front + [e], i)
    {
      StandsGrows(base, front, e, i);
    }
    forall i | 0 <= i < |NewNames(base, front)|
      ensures LastOverride(front + [e], NewNames(base, front)[i]) == Some(Put(out, e)[|base| + i])
    {
      LastOverrideGrows(front, e, NewNames(base, front)[i]);
      if i != n { NewNamesDiffer(base, front, i, n); }
    }
  }

  /** One for a name that is new now goes to the end. */
  lemma PutAtTheEnd(base: Env, front: Env, e: string, out: Env)
    requires InPlace(base, front, out) && Usable(e)
    requires LastBinding(base, Cut(e).value.key) < 0 && Cut(e).value.key !in NewNames(base, front)
    ensures InPlace(base, front + [e], Put(out, e))
  {
    var key, names := Cut(e).value.key, NewNames(base, front);
    NewNamesGrows(base, front, e);
    LastInMerged(base, front, out, key);
    assert Put(out, e) == out + [e] && NewNames(base, front + [e]) == names + [key];
    forall i | 0 <= i < |base|
      ensures Put(out, e)[i] == StandsAt(base, front + [e], i)
    {
      StandsGrows(base, front, e, i);
    }
    LastOverrideGrows(front, e, key);
    forall i | 0 <= i < |names|
      ensures LastOverride(front + [e], names[i]) == Some(out[|base| + i])
    {
      LastOverrideGrows(front, e, names[i]);
      assert names[i] in names;
    }
  }

  lemma PutIsInPlace(base: Env, front: Env, e: string, out: Env)
    requires InPlace(base, front, out)
    ensures InPlace(base, front + [e], Put(out, e))
  {
    if !Usable(e) || LastBinding(base, Cut(e).value.key) >= 0 {
      PutInBase(base, front, e, out);
    } else if Cut(e).value.key in NewNames(base, front) {
      var n :| 0 <= n < |NewNames(base, front)| && NewNames(base, front)[n] == Cut(e).value.key;
      PutAgain(base, front, e, out, n);
    } else {
      PutAtTheEnd(base, front, e, out);
    }
  }

  lemma PortKeysDiffer(i: nat, j: nat)
    ensures PortKey(i) == PortKey(j) ==> i == j
    ensures PortKey(i) !in [INTERFACE_KEY, IP_KEY, HOST_INTERFACE_KEY, HOST_IP_KEY]
  {
    assert PortKey(i)[12..] == Decimal(i + 1) && PortKey(j)[12..] == Decimal(j + 1);
    DecimalInjective(i + 1, j + 1);
    assert PortKey(i)[7] == 'P' && INTERFACE_KEY[7] == 'I' && IP_KEY[7] == 'I';
    assert HOST_INTERFACE_KEY[7] == 'H' && HOST_IP_KEY[7] == 'H';
  }

  lemma {:induction false} NetworkValuesSpelled(net: NetConfig, ports: seq<PortMapping>)
    ensures var values := NetworkValues(net, ports);
            && INTERFACE_KEY in values && IP_KEY in values && HOST_INTERFACE_KEY in values && HOST_IP_KEY in values
            && values[INTERFACE_KEY] == net.iface && values[IP_KEY] == net.ip
            && values[HOST_INTERFACE_KEY] == net.hostInterface && values[HOST_IP_KEY] == net.hostIP
            && forall i :: 0 <= i < |ports| ==>
                 PortKey(i) in values && values[PortKey(i)] == Decimal(ports[i].nodePort as nat)
    decreases |ports|
  {
    if ports == [] {
      assert INTERFACE_KEY[7..] != IP_KEY[7..] && INTERFACE_KEY[8] != IP_KEY[8];
      assert HOST_INTERFACE_KEY[13] != HOST_IP_KEY[13];
      assert INTERFACE_KEY[7] == 'I' && HOST_INTERFACE_KEY[7] == 'H' && IP_KEY[7] == 'I' && HOST_IP_KEY[7] == 'H';
    } else {
      var last := |ports| - 1;
      NetworkValuesSpelled(net, ports[..last]);
      forall i: nat
        ensures PortKey(i) == PortKey(last) ==> i == last
      {
        PortKeysDiffer(i, last);
      }
      PortKeysDiffer(last, last);
    }
  }

  lemma OneMoreKey(count: nat)
    ensures NetworkKeys(count + 1) == NetworkKeys(count) + [PortKey(count)]
  {
  }

  lemma OneLonger(keys: seq<string>, key: string)
    requires |keys| >= 4
    ensures (keys + [key])[..4] == keys[..4]
  {
  }

  lemma {:induction false} KeysAfter(head: seq<string>, count: nat)
    requires NetworkKeys(0) == head && |head| == 4
    ensures |NetworkKeys(count)| == 4 + count && NetworkKeys(count)[..4] == head
  {
    if count > 0 {
      KeysAfter(head, count - 1);
      OneMoreKey(count - 1);
      OneLonger(NetworkKeys(count - 1), PortKey(count - 1));
    }
  }

  lemma {:induction false} KeyAt(count: nat, i: nat)
    requires i < count && |NetworkKeys(0)| == 4
    ensures |NetworkKeys(count)| == 4 + count && NetworkKeys(count)[4 + i] == PortKey(i)
  {
    KeysAfter(NetworkKeys(0), count - 1);
    OneMoreKey(count - 1);
    if i < count - 1 { KeyAt(count - 1, i); }
  }

  lemma NetworkKeysSpelled(count: nat)
    ensures var keys := NetworkKeys(count);
            && |keys| == 4 + count && keys[..4] == [INTERFACE_KEY, IP_KEY, HOST_INTERFACE_KEY, HOST_IP_KEY]
            && forall i :: 0 <= i < count ==> keys[4 + i] == PortKey(i)
  {
    KeysAfter([INTERFACE_KEY, IP_KEY, HOST_INTERFACE_KEY, HOST_IP_KEY], count);
    forall i | 0 <= i < count
      ensures NetworkKeys(count)[4 + i] == PortKey(i)
    {
      KeyAt(count, i);
    }
  }

  /** What the network adds to the workload's environment, spelled out: the two interfaces with their addresses, and
      under the number of each mapping, from 1, its node port. */
  lemma NetworkArgsSpelled(net: NetConfig, ports: seq<PortMapping>)
    ensures var args := NetworkArgs(net, ports);
            && |args| == 4 + |ports|
            && args[0] == "MACKER_INTERFACE" + "=" + net.iface && args[1] == "MACKER_IP" + "=" + net.ip
            && args[2] == "MACKER_HOST_INTERFACE" + "=" + net.hostInterface
            && args[3] == "MACKER_HOST_IP" + "=" + net.hostIP
            && forall i :: 0 <= i < |ports| ==>
                 args[4 + i] == "MACKER_PORT_" + Decimal(i + 1) + "=" + Decimal(ports[i].nodePort as nat)
  {
    var keys := NetworkKeys(|ports|);
    NetworkValuesSpelled(net, ports);
    NetworkKeysSpelled(|ports|);
    assert keys[0] == keys[..4][0] && keys[1] == keys[..4][1] && keys[2] == keys[..4][2] && keys[3] == keys[..4][3];
  }
}
