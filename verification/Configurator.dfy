/** The configurator of `device/config/configurator.go`. */
module Configurator {
  import opened SortedKeys
  import opened Callbacks
  import opened DefaultCallbacks

  /** The image mounted in the virtual machine. */
  class Image {
    var files: Files
  }

  /** The keys in ascending order, whatever order a map hands them out in. */
  ghost function AscendingKeys(keys: set<string>): (ks: seq<string>)
    ensures Ascending(ks) && Enumerates(ks, keys)
  {
    SomeEnumeration(keys);
    var any :| Enumerates(any, keys);
    SortAscending(any);
    AscendingDistinct(Sort(any));
    Sort(any)
  }

  lemma {:induction false} SomeEnumeration(keys: set<string>)
    ensures exists ks :: Enumerates(ks, keys)
  {
    if keys == {} {
      assert Enumerates([], keys);
    } else {
      var k :| k in keys;
      SomeEnumeration(keys - {k});
      var ks :| Enumerates(ks, keys - {k});
      assert Enumerates(ks + [k], keys);
    }
  }

  lemma {:induction false} AscendingKeysUnique(ks: seq<string>, keys: set<string>)
    requires Ascending(ks) && Enumerates(ks, keys)
    ensures ks == AscendingKeys(keys)
  {
    AscendingUnique(ks, AscendingKeys(keys));
  }

  lemma {:induction false} EnumerationsJoin(a: seq<string>, b: seq<string>, keys: set<string>, keys': set<string>)
    requires Enumerates(a, keys) && Enumerates(b, keys') && keys !! keys'
    ensures Enumerates(a + b, keys + keys')
  {
    forall i, j | 0 <= i < j < |a + b| ensures (a + b)[i] != (a + b)[j] {
      if i < |a| <= j { assert a[i] in keys && b[j - |a|] in keys'; }
    }
  }

  class Configurator {
    var storage: Storage
    var order: map<string, CallbackFn>

    /** New: the connection is stored, no callbacks are registered. */
    constructor ()
      ensures storage == map[SSH_KEY := Ssh] && order == map[]
    {
      storage := map[SSH_KEY := Ssh];
      order := map[];
    }

    constructor NewDefault(h: Host)
      ensures storage == map["ssh" := Ssh] && order == DefaultOrder(h)
      ensures order.Keys == {"Locale", "Keymap", "Wifi", "Interface", "DNS", "Hostname"}
    {
      storage := map[SSH_KEY := Ssh];
      order := map[];
      new;
      AddConfigFn(LOCALE, LocaleFn(h));
      AddConfigFn(KEYMAP, KeymapFn(h));
      AddConfigFn(WIFI, WifiFn(h));
      AddConfigFn(INTERFACE, InterfaceFn(h));
      AddConfigFn(DNS, DnsFn(h));
      AddConfigFn(HOSTNAME, HostnameFn(h));
      KeysDiffer();
    }

    method AddConfigFn(name: string, ccf: CallbackFn)
      modifies this`order
      ensures order == old(order)[name := ccf]
    {
      order := order[name := ccf];
    }

    method SetConfigFn(name: string, ccf: CallbackFn)
      modifies this`order
      ensures order == old(order)[name := ccf]
    {
      order := order[name := ccf];
    }

    method RemoveConfigFn(name: string)
      modifies this`order
      ensures order == old(order) - {name}
    {
      order := order - {name};
    }

    /** Setup runs the Config callbacks in ascending key order up to the first error, in whatever order the
        map hands out its keys. */
    method Setup(image: Image) returns (verdict: Verdict)
      modifies this`storage, image
      ensures Run(Config, order, AscendingKeys(order.Keys), Env(old(storage), old(image.files))) ==
              Outcome(Env(storage, image.files), verdict)
    {
      var keys := [];
      var left := order.Keys;
      while left != {}
        invariant left <= order.Keys && Enumerates(keys, order.Keys - left)
      {
        var k :| k in left;
        left := left - {k};
        keys := keys + [k];
      }
      SortAscending(keys);
      AscendingDistinct(Sort(keys));
      keys := Sort(keys);
      AscendingKeysUnique(keys, order.Keys);
      ghost var e := Env(storage, image.files);
      for i := 0 to |keys|
        invariant Run(Config, order, keys[..i], e) == Outcome(Env(storage, image.files), Fine)
      {
        RunSnoc(Config, order, keys, i, e);
        if order[keys[i]].config.None? {
          continue;
        }
        var o := order[keys[i]].config.value(Env(storage, image.files));
        storage, image.files := o.env.storage, o.env.files;
        if o.verdict.Stop? {
          RunStopped(Config, order, keys, i + 1, e);
          return o.verdict;
        }
      }
      assert keys[..|keys|] == keys;
      return Fine;
    }

    /** Write runs the Apply callbacks in an arbitrary order up to the first error. */
    method Write(image: Image) returns (verdict: Verdict, ghost visited: seq<string>)
      modifies this`storage, image
      ensures Enumerates(visited, order.Keys)
      ensures Run(Apply, order, visited, Env(old(storage), old(image.files))) ==
              Outcome(Env(storage, image.files), verdict)
    {
      ghost var e := Env(storage, image.files);
      var left := order.Keys;
      visited := [];
      while left != {}
        invariant left <= order.Keys && Enumerates(visited, order.Keys - left)
        invariant Run(Apply, order, visited, e) == Outcome(Env(storage, image.files), Fine)
      {
        var k :| k in left;
        left := left - {k};
        ghost var before := visited;
        visited := visited + [k];
        assert visited[..|before|] == before;
        if order[k].apply.None? {
          continue;
        }
        var o := order[k].apply.value(Env(storage, image.files));
        storage, image.files := o.env.storage, o.env.files;
        if o.verdict.Stop? {
          ghost var rest := AscendingKeys(left);
          EnumerationsJoin(visited, rest, order.Keys - left, left);
          RunStopped(Apply, order, visited + rest, |visited|, e);
          assert (visited + rest)[..|visited|] == visited;
          visited := visited + rest;
          return o.verdict, visited;
        }
      }
      return Fine, visited;
    }
  }

  lemma {:induction false} RunSnoc(phase: Phase, order: map<string, CallbackFn>, ks: seq<string>, i: nat, e: Env)
    requires i < |ks| && forall k :: k in ks ==> k in order
    ensures var o := Run(phase, order, ks[..i], e);
            Run(phase, order, ks[..i + 1], e) == if o.verdict.Stop? then o else Step(phase, order[ks[i]], o.env)
  {
    assert ks[..i + 1][..i] == ks[..i];
  }

  /** After an error nothing more is called. */
  lemma {:induction false} RunStopped(phase: Phase, order: map<string, CallbackFn>, ks: seq<string>, i: nat, e: Env)
    requires i <= |ks| && forall k :: k in ks ==> k in order
    requires Run(phase, order, ks[..i], e).verdict.Stop?
    ensures Run(phase, order, ks, e) == Run(phase, order, ks[..i], e)
    decreases |ks|
  {
    if i == |ks| {
      assert ks[..i] == ks;
    } else {
      var front := ks[..|ks| - 1];
      assert front[..i] == ks[..i];
      RunStopped(phase, order, front, i, e);
    }
  }

  // ----- registering callbacks -----

  datatype Registration = Put(name: string, fn: CallbackFn) | Drop(name: string)

  function Register(order: map<string, CallbackFn>, rs: seq<Registration>): map<string, CallbackFn> {
    if rs == [] then order
    else
      var before := Register(order, rs[..|rs| - 1]);
      match rs[|rs| - 1]
      case Put(name, fn) => before[name := fn]
      case Drop(name) => before - {name}
  }

  /** The last registration that concerns a name. */
  function LastFor(rs: seq<Registration>, name: string): Option<Registration> {
    if rs == [] then None
    else if rs[|rs| - 1].name == name then Some(rs[|rs| - 1])
    else LastFor(rs[..|rs| - 1], name)
  }

  function Registered(order: map<string, CallbackFn>, name: string): Option<CallbackFn> {
    if name in order then Some(order[name]) else None
  }

  lemma {:induction false} LastRegistrationCounts(order: map<string, CallbackFn>, rs: seq<Registration>, name: string)
    ensures Registered(Register(order, rs), name) ==
            match LastFor(rs, name)
            case None => Registered(order, name)
            case Some(Put(_, fn)) => Some(fn)
            case Some(Drop(_)) => None
  {
    if rs != [] { LastRegistrationCounts(order, rs[..|rs| - 1], name); }
  }

  /** Only the last registration of each name counts, not the order in which names were registered, so Setup
      makes the same calls. */
  lemma {:induction false} RegistrationOrderIrrelevant(order: map<string, CallbackFn>, rs: seq<Registration>,
                                                       rs': seq<Registration>)
    requires forall name :: LastFor(rs, name) == LastFor(rs', name)
    ensures Register(order, rs) == Register(order, rs')
  {
    var a, b := Register(order, rs), Register(order, rs');
    forall name ensures Registered(a, name) == Registered(b, name) {
      LastRegistrationCounts(order, rs, name);
      LastRegistrationCounts(order, rs', name);
      assert LastFor(rs, name) == LastFor(rs', name);
    }
    assert forall name :: name in a <==> Registered(a, name).Some?;
    assert forall name :: name in b <==> Registered(b, name).Some?;
    assert forall name :: name in a ==> a[name] == Registered(a, name).value == Registered(b, name).value;
  }

  // ----- Write is confluent -----

  /** For any storage and any image, the default callbacks leave the same image whatever the iteration
      order, and whether they succeed does not depend on it either. */
  lemma {:induction false} DefaultWriteConfluent(h: Host, e: Env, ks: seq<string>, ls: seq<string>)
    requires Enumerates(ks, DefaultOrder(h).Keys) && Enumerates(ls, DefaultOrder(h).Keys)
    ensures var o, p := Run(Apply, DefaultOrder(h), ks, e), Run(Apply, DefaultOrder(h), ls, e);
            (o.verdict.Fine? <==> p.verdict.Fine?) && (o.verdict.Fine? ==> o == p && o.env.storage == e.storage)
  {
    DefaultIndependent(h, e.storage);
    Confluent(DefaultOrder(h), DefaultFootprints(e.storage), e, ks, ls);
    RunReachesTarget(DefaultOrder(h), DefaultFootprints(e.storage), ks, e);
  }

  /** The same with the callbacks of a Raspberry Pi. */
  lemma {:induction false} PiWriteConfluent(h: Host, e: Env, ks: seq<string>, ls: seq<string>)
    requires Enumerates(ks, PiOrder(h).Keys) && Enumerates(ls, PiOrder(h).Keys)
    ensures var o, p := Run(Apply, PiOrder(h), ks, e), Run(Apply, PiOrder(h), ls, e);
            (o.verdict.Fine? <==> p.verdict.Fine?) && (o.verdict.Fine? ==> o == p && o.env.storage == e.storage)
  {
    PiIndependent(h, e.storage);
    Confluent(PiOrder(h), PiFootprints(e.storage), e, ks, ls);
    RunReachesTarget(PiOrder(h), PiFootprints(e.storage), ks, e);
  }
}
