/** Callbacks over the shared storage and the mounted image, and running a map of them in some order. */
module Callbacks {
  import opened SortedKeys
  import opened Documents

  /** The values that end up in the configurator's storage. */
  datatype Value = Text(doc: Document) | Flag | Ssh

  type Storage = map<string, Value>

  /** The files of the mounted image that callbacks write. */
  datatype ImageFile =
    | LocaleConf | Environment | VconsoleConf | WpaSupplicantConf | InterfacesD(name: string)
    | DhclientConf | DhcpcdConf | EtcHosts | EtcHostname | BootSsh | BootConfigTxt

  type Files = map<ImageFile, string>

  datatype Content = Absent | Present(text: string)

  function Lookup(files: Files, f: ImageFile): Content {
    if f in files then Present(files[f]) else Absent
  }

  datatype Env = Env(storage: Storage, files: Files)

  datatype Error = NoSsh | BadType | Failed(eut: string)

  datatype Verdict = Fine | Stop(error: Error)

  datatype Outcome = Outcome(env: Env, verdict: Verdict)

  type Callback = Env -> Outcome

  datatype Option<+T> = None | Some(value: T)

  /** A pair of callbacks, either of which may be missing. */
  datatype CallbackFn = CallbackFn(config: Option<Callback>, apply: Option<Callback>)

  datatype Phase = Config | Apply

  function Step(phase: Phase, fn: CallbackFn, e: Env): Outcome {
    var cb := if phase.Config? then fn.config else fn.apply;
    if cb.None? then Outcome(e, Fine) else cb.value(e)
  }

  /** Call the callbacks of `ks` one after the other and stop at the first error. */
  function Run(phase: Phase, order: map<string, CallbackFn>, ks: seq<string>, e: Env): Outcome
    requires forall k :: k in ks ==> k in order
  {
    if ks == [] then Outcome(e, Fine)
    else
      var o := Run(phase, order, ks[..|ks| - 1], e);
      if o.verdict.Stop? then o else Step(phase, order[ks[|ks| - 1]], o.env)
  }

  /** `ks` visits every key of the set exactly once. */
  ghost predicate Enumerates(ks: seq<string>, keys: set<string>) {
    Distinct(ks) && forall k :: k in ks <==> k in keys
  }

  // ----- confluence -----

  /** What an applied callback does to an image, with this storage. */
  function Effect(fn: CallbackFn, st: Storage, files: Files): Outcome {
    Step(Apply, fn, Env(st, files))
  }

  predicate AgreeOn(a: Files, b: Files, fs: set<ImageFile>) {
    forall f :: f in fs ==> Lookup(a, f) == Lookup(b, f)
  }

  ghost predicate TouchesOnly(fn: CallbackFn, st: Storage, fs: set<ImageFile>, files: Files) {
    var o := Effect(fn, st, files);
    o.env.storage == st && forall f :: f !in fs ==> Lookup(o.env.files, f) == Lookup(files, f)
  }

  ghost predicate SameWithin(fn: CallbackFn, st: Storage, fs: set<ImageFile>, a: Files, b: Files) {
    var o, p := Effect(fn, st, a), Effect(fn, st, b);
    o.verdict == p.verdict && AgreeOn(o.env.files, p.env.files, fs)
  }

  /** With this storage, the applied callback leaves the storage alone, touches no file outside `fs`, and
      what it does inside depends on nothing else. */
  ghost predicate Local(fn: CallbackFn, st: Storage, fs: set<ImageFile>) {
    && (forall files :: TouchesOnly(fn, st, fs, files))
    && (forall a, b :: AgreeOn(a, b, fs) ==> SameWithin(fn, st, fs, a, b))
  }

  /** Every callback is local to its footprint, and footprints do not overlap. */
  ghost predicate Independent(order: map<string, CallbackFn>, st: Storage, fps: map<string, set<ImageFile>>) {
    && fps.Keys == order.Keys
    && (forall k :: k in order ==> Local(order[k], st, fps[k]))
    && (forall k, l :: k in order && l in order && k != l ==> fps[k] !! fps[l])
  }

  predicate Known(order: map<string, CallbackFn>, fps: map<string, set<ImageFile>>, ks: seq<string>) {
    forall k :: k in ks ==> k in order && k in fps
  }

  /** The content of a file when the callback that owns it has worked on the original image. */
  function Target(order: map<string, CallbackFn>, fps: map<string, set<ImageFile>>, ks: seq<string>, e: Env,
                  f: ImageFile): Content
    requires Known(order, fps, ks)
  {
    if ks == [] then Lookup(e.files, f)
    else
      var last := ks[|ks| - 1];
      if f in fps[last] then Lookup(Effect(order[last], e.storage, e.files).env.files, f)
      else Target(order, fps, ks[..|ks| - 1], e, f)
  }

  lemma {:induction false} TargetOwned(order: map<string, CallbackFn>, fps: map<string, set<ImageFile>>,
                                       ks: seq<string>, e: Env, f: ImageFile, k: string)
    requires Known(order, fps, ks) && k in ks && f in fps[k]
    requires forall l :: l in ks && l != k ==> f !in fps[l]
    ensures Target(order, fps, ks, e, f) == Lookup(Effect(order[k], e.storage, e.files).env.files, f)
  {
    var front, last := ks[..|ks| - 1], ks[|ks| - 1];
    if last != k {
      assert ks == front + [last];
      TargetOwned(order, fps, front, e, f, k);
    }
  }

  lemma {:induction false} TargetUnowned(order: map<string, CallbackFn>, fps: map<string, set<ImageFile>>,
                                         ks: seq<string>, e: Env, f: ImageFile)
    requires Known(order, fps, ks)
    requires forall l :: l in ks ==> f !in fps[l]
    ensures Target(order, fps, ks, e, f) == Lookup(e.files, f)
  {
    if ks != [] {
      assert ks[|ks| - 1] in ks;
      TargetUnowned(order, fps, ks[..|ks| - 1], e, f);
    }
  }

  /** Does every callback of `ks` succeed on the original image? */
  predicate AllFine(order: map<string, CallbackFn>, ks: seq<string>, e: Env)
    requires forall k :: k in ks ==> k in order
  {
    forall k :: k in ks ==> Effect(order[k], e.storage, e.files).verdict.Fine?
  }

  lemma {:induction false} RunReachesTarget(order: map<string, CallbackFn>, fps: map<string, set<ImageFile>>,
                                            ks: seq<string>, e: Env)
    requires Independent(order, e.storage, fps) && Distinct(ks) && Known(order, fps, ks)
    ensures var o := Run(Apply, order, ks, e);
            && o.env.storage == e.storage
            && (o.verdict.Fine? <==> AllFine(order, ks, e))
            && (o.verdict.Fine? ==> forall f :: Lookup(o.env.files, f) == Target(order, fps, ks, e, f))
            && (o.verdict.Stop? ==> exists k :: k in ks && o.verdict == Effect(order[k], e.storage, e.files).verdict)
  {
    if ks != [] {
      var front, last := ks[..|ks| - 1], ks[|ks| - 1];
      assert ks == front + [last];
      RunReachesTarget(order, fps, front, e);
      var o := Run(Apply, order, front, e);
      if o.verdict.Fine? {
        OneMore(order, fps, front, last, e, o.env.files);
        assert o.env == Env(e.storage, o.env.files);
      }
    }
  }

  lemma {:induction false} OneMore(order: map<string, CallbackFn>, fps: map<string, set<ImageFile>>,
                                   front: seq<string>, last: string, e: Env, files: Files)
    requires Independent(order, e.storage, fps) && Distinct(front + [last]) && Known(order, fps, front)
    requires last in order
    requires forall f :: Lookup(files, f) == Target(order, fps, front, e, f)
    ensures var o := Effect(order[last], e.storage, files);
            && o.env.storage == e.storage
            && o.verdict == Effect(order[last], e.storage, e.files).verdict
            && forall f :: Lookup(o.env.files, f) ==
                           if f in fps[last] then Lookup(Effect(order[last], e.storage, e.files).env.files, f)
                           else Target(order, fps, front, e, f)
  {
    assert TouchesOnly(order[last], e.storage, fps[last], files);
    forall f | f in fps[last] ensures Lookup(files, f) == Lookup(e.files, f) {
      forall l | l in front ensures f !in fps[l] {
        var i :| 0 <= i < |front| && front[i] == l;
        assert (front + [last])[i] == l && (front + [last])[|front|] == last;
        assert fps[l] !! fps[last];
      }
      TargetUnowned(order, fps, front, e, f);
    }
    assert AgreeOn(files, e.files, fps[last]);
    assert SameWithin(order[last], e.storage, fps[last], files, e.files);
  }

  lemma {:induction false} SameLookups(a: Files, b: Files)
    requires forall f :: Lookup(a, f) == Lookup(b, f)
    ensures a == b
  {
    forall f ensures f in a <==> f in b {
      assert Lookup(a, f) == Lookup(b, f);
    }
    forall f | f in a ensures a[f] == b[f] {
      assert Lookup(a, f) == Lookup(b, f);
    }
  }

  lemma {:induction false} TargetsAgree(order: map<string, CallbackFn>, fps: map<string, set<ImageFile>>, e: Env,
                                        ks: seq<string>, ls: seq<string>, f: ImageFile)
    requires Independent(order, e.storage, fps) && Known(order, fps, ks) && Known(order, fps, ls)
    requires forall k :: k in ks <==> k in ls
    ensures Target(order, fps, ks, e, f) == Target(order, fps, ls, e, f)
  {
    if k :| k in ks && f in fps[k] {
      forall l | l in order && l != k ensures f !in fps[l] { assert fps[l] !! fps[k]; }
      TargetOwned(order, fps, ks, e, f, k);
      TargetOwned(order, fps, ls, e, f, k);
    } else {
      TargetUnowned(order, fps, ks, e, f);
      TargetUnowned(order, fps, ls, e, f);
    }
  }

  /** For callbacks with disjoint footprints the order of the calls does not matter: whether all succeed is
      settled by each of them alone, and the image they leave behind is always the same. */
  lemma {:induction false} Confluent(order: map<string, CallbackFn>, fps: map<string, set<ImageFile>>, e: Env,
                                     ks: seq<string>, ls: seq<string>)
    requires Independent(order, e.storage, fps)
    requires Enumerates(ks, order.Keys) && Enumerates(ls, order.Keys)
    ensures var o, p := Run(Apply, order, ks, e), Run(Apply, order, ls, e);
            && (o.verdict.Fine? <==> p.verdict.Fine?)
            && (o.verdict.Fine? ==> o == p)
  {
    RunReachesTarget(order, fps, ks, e);
    RunReachesTarget(order, fps, ls, e);
    var o, p := Run(Apply, order, ks, e), Run(Apply, order, ls, e);
    if o.verdict.Fine? && p.verdict.Fine? {
      forall f ensures Lookup(o.env.files, f) == Lookup(p.env.files, f) {
        TargetsAgree(order, fps, e, ks, ls, f);
      }
      SameLookups(o.env.files, p.env.files);
    }
  }
}
