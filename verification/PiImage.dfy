/** From the answers of the user to the files of a Raspberry Pi image: the callbacks of `device/rasppi.go` in
    Setup and Write. */
module PiImage {
  import opened Text
  import opened SortedKeys
  import opened Documents
  import opened Callbacks
  import opened DefaultCallbacks
  import opened Configurator
  import opened ConfiguredImage

  /** The configurator of a Raspberry Pi: the default one, with one callback replaced and two added. */
  method PiConfigurator(h: Host) returns (c: Configurator)
    ensures fresh(c) && c.storage == FRESH && c.order == PiOrder(h)
  {
    c := new Configurator.NewDefault(h);
    c.SetConfigFn(INTERFACE, PiInterfaceFn(h));
    c.AddConfigFn(PI_SSH, PiSshFn(h));
    c.AddConfigFn(PI_CAMERA, PiCameraFn(h));
    PiOrderIsDefaultOrder(h);
  }

  /** The same three registrations lead from the default callbacks to those of a Raspberry Pi. */
  lemma {:induction false} PiOrderIsDefaultOrder(h: Host)
    ensures PiOrder(h) ==
            DefaultOrder(h)[INTERFACE := PiInterfaceFn(h)][PI_SSH := PiSshFn(h)][PI_CAMERA := PiCameraFn(h)]
  {
    KeysDiffer();
  }

  // ----- Setup -----

  const PI_KEYS := [PI_CAMERA, DNS, HOSTNAME, INTERFACE, KEYMAP, LOCALE, PI_SSH, WIFI]

  lemma {:induction false} PiKeysAscend(h: Host)
    ensures AscendingKeys(PiOrder(h).Keys) == PI_KEYS
  {
    AscendingByInitial(PI_KEYS);
    AscendingDistinct(PI_KEYS);
    PiKeysAreKeys(h);
    AscendingKeysUnique(PI_KEYS, PiOrder(h).Keys);
  }

  lemma {:induction false} PiKeysAreKeys(h: Host)
    ensures forall k :: k in PI_KEYS <==> k in PiOrder(h)
  {
  }

  /** The boot partition after the two questions that write to it at once. */
  function WithCamera(h: Host, files: Files): Files {
    if h.user.piCamera then Execute(h, files, AppendTo(BootConfigTxt, CameraText)).0 else files
  }

  function WithSsh(h: Host, files: Files): Files {
    if h.user.piSsh then Execute(h, files, Touch(BootSsh)).0 else files
  }

  /** What the last three questions store, after the language stored before. */
  function StorageAfterThree(h: Host, language: string, st: Storage): Storage {
    var keyboard := h.user.keyboard(language);
    var st1 := if keyboard.Some? then st[KEYMAP := Text(KeymapText(keyboard.value))] else st;
    var st2 := if h.user.locale.Some? then st1[LOCALE := Text(Plain(h.user.locale.value))] else st1;
    if h.user.wifi.None? then st2
    else st2[WIFI_NAME := Text(Plain(h.user.wifi.value.ssid))][WIFI_PASS := Text(Plain(h.user.wifi.value.pass))]
  }

  function WithInterface(h: Host, st: Storage): Storage {
    if h.user.address.None? then st else st[INTERFACE := Text(PiInterfaceText(h.user.address.value))]
  }

  /** The same answers without a static address. */
  function NoAddress(h: Host): Host {
    h.(user := h.user.(address := None))
  }

  function PiStorage(h: Host): Storage {
    WithInterface(h, StorageAfterSetup(NoAddress(h), FRESH))
  }

  lemma {:induction false} InterfaceApart(h: Host, language: string, st: Storage)
    ensures StorageAfterThree(h, language, WithInterface(h, st)) == WithInterface(h, StorageAfterThree(h, language, st))
  {
    KeysDiffer();
    assert WIFI_NAME != INTERFACE && WIFI_PASS != INTERFACE by { assert WIFI_NAME[0] == 'W' && WIFI_PASS[0] == 'W'; }
  }

  lemma {:induction false} PiKnownKeys(h: Host, ks: seq<string>)
    requires forall k :: k in ks ==> k in PI_KEYS
    ensures forall k :: k in ks ==> k in PiOrder(h)
  {
  }

  const LAST_FIVE := [INTERFACE, KEYMAP, LOCALE, PI_SSH, WIFI]

  lemma {:induction false} PiRunFirstThree(h: Host, e: Env)
    requires AllSucceed(h) && HasSsh(e.storage) && !h.cat.failed
    ensures forall k :: k in PI_KEYS ==> k in PiOrder(h)
    ensures forall k :: k in LAST_FIVE ==> k in PiOrder(h)
    ensures Run(Config, PiOrder(h), PI_KEYS, e) ==
            Run(Config, PiOrder(h), LAST_FIVE, Env(StorageAfterTwo(h, e.storage), WithCamera(h, e.files)))
  {
    var order := PiOrder(h);
    KeysDiffer();
    PiKnownKeys(h, PI_KEYS);
    PiKnownKeys(h, LAST_FIVE);
    PiKnownKeys(h, [DNS] + ([HOSTNAME] + LAST_FIVE));
    assert PI_KEYS == [PI_CAMERA] + ([DNS] + ([HOSTNAME] + LAST_FIVE));
    RunCons(Config, order, PI_CAMERA, [DNS] + ([HOSTNAME] + LAST_FIVE), e);
    CameraSucceeds(h, e);
    var e1 := Env(e.storage, WithCamera(h, e.files));
    RunCons(Config, order, DNS, [HOSTNAME] + LAST_FIVE, e1);
    var e2 := SetSecondaryDNS(h, e1).env;
    RunCons(Config, order, HOSTNAME, LAST_FIVE, e2);
    assert SSH_KEY[0] == 's' && DNS[0] == 'D';
  }

  lemma {:induction false} CameraSucceeds(h: Host, e: Env)
    requires AllSucceed(h) && HasSsh(e.storage)
    ensures EnablePiCamera(h, e) == Outcome(Env(e.storage, WithCamera(h, e.files)), Fine)
    ensures EnablePiSsh(h, e) == Outcome(Env(e.storage, WithSsh(h, e.files)), Fine)
  {
    OneTaskSucceeds(h, e, Task(AppendTo(BootConfigTxt, CameraText), MustSucceed));
    OneTaskSucceeds(h, e, Task(Touch(BootSsh), MustSucceed));
  }

  lemma {:induction false} OneTaskSucceeds(h: Host, e: Env, t: Task)
    requires AllSucceed(h)
    ensures Perform(h, e, Do([t])) == Outcome(Env(e.storage, Execute(h, e.files, t.cmd).0), Fine)
  {
    WorkSucceeds(h, e.files, [t]);
    WorkThrough(h, e.files, t, []);
    WorkThrough(h, Execute(h, e.files, t.cmd).0, t, []);
    assert [t] + [] == [t];
  }

  lemma {:induction false} PiRunThreeMore(h: Host, e: Env)
    ensures forall k :: k in LAST_FIVE || k in [PI_SSH, WIFI] ==> k in PiOrder(h)
    ensures var e3 := SetLocale(h, SetKeyboard(h, SetPiInterface(h, e).env).env).env;
            Run(Config, PiOrder(h), LAST_FIVE, e) == Run(Config, PiOrder(h), [PI_SSH, WIFI], e3)
  {
    var order := PiOrder(h);
    KeysDiffer();
    PiKnownKeys(h, LAST_FIVE);
    PiKnownKeys(h, [PI_SSH, WIFI]);
    assert LAST_FIVE == [INTERFACE] + [KEYMAP, LOCALE, PI_SSH, WIFI];
    RunCons(Config, order, INTERFACE, [KEYMAP, LOCALE, PI_SSH, WIFI], e);
    var e1 := SetPiInterface(h, e).env;
    assert [KEYMAP, LOCALE, PI_SSH, WIFI] == [KEYMAP] + [LOCALE, PI_SSH, WIFI];
    RunCons(Config, order, KEYMAP, [LOCALE, PI_SSH, WIFI], e1);
    var e2 := SetKeyboard(h, e1).env;
    assert [LOCALE, PI_SSH, WIFI] == [LOCALE] + [PI_SSH, WIFI];
    RunCons(Config, order, LOCALE, [PI_SSH, WIFI], e2);
  }

  lemma {:induction false} PiRunLastTwo(h: Host, e: Env)
    requires AllSucceed(h) && HasSsh(e.storage)
    ensures forall k :: k in [PI_SSH, WIFI] ==> k in PiOrder(h)
    ensures Run(Config, PiOrder(h), [PI_SSH, WIFI], e) == SetWifi(h, Env(e.storage, WithSsh(h, e.files)))
  {
    var order := PiOrder(h);
    KeysDiffer();
    PiKnownKeys(h, [PI_SSH, WIFI]);
    assert [PI_SSH, WIFI] == [PI_SSH] + [WIFI];
    RunCons(Config, order, PI_SSH, [WIFI], e);
    CameraSucceeds(h, e);
    assert [WIFI] == [WIFI] + [];
    RunCons(Config, order, WIFI, [], Env(e.storage, WithSsh(h, e.files)));
  }

  lemma {:induction false} PiRunLastFive(h: Host, e: Env)
    requires AllSucceed(h) && HasSsh(e.storage)
    ensures forall k :: k in LAST_FIVE ==> k in PiOrder(h)
    ensures var st := WithInterface(h, e.storage);
            Run(Config, PiOrder(h), LAST_FIVE, e) ==
            Outcome(Env(StorageAfterThree(h, StoredLanguage(st), st), WithSsh(h, e.files)), Fine)
  {
    PiRunThreeMore(h, e);
    var e3 := SetLocale(h, SetKeyboard(h, SetPiInterface(h, e).env).env).env;
    SshKept(h, e.storage, e3.storage);
    PiRunLastTwo(h, e3);
  }

  lemma {:induction false} SshKept(h: Host, st: Storage, st': Storage)
    requires HasSsh(st) && st' == SetLocale(h, SetKeyboard(h, SetPiInterface(h, Env(st, map[])).env).env).env.storage
    ensures HasSsh(st')
  {
    assert SSH_KEY[0] == 's' && INTERFACE[0] == 'I' && KEYMAP[0] == 'K' && LOCALE[0] == 'L';
  }

  /** Setup on a fresh configurator: what it stores, and what it already writes to the boot partition. */
  lemma {:induction false} PiSetupStores(h: Host, files: Files)
    requires AllSucceed(h) && !h.cat.failed
    ensures Run(Config, PiOrder(h), AscendingKeys(PiOrder(h).Keys), Env(FRESH, files)) ==
            Outcome(Env(PiStorage(h), WithSsh(h, WithCamera(h, files))), Fine)
  {
    PiKeysAscend(h);
    PiRunFirstThree(h, Env(FRESH, files));
    FreshTwo(h);
    var st := StorageAfterTwo(h, FRESH);
    PiRunLastFive(h, Env(st, WithCamera(h, files)));
    InterfaceApart(h, "", st);
  }

  lemma {:induction false} FreshTwo(h: Host)
    ensures var st := StorageAfterTwo(h, FRESH);
            && HasSsh(st) && StoredLanguage(WithInterface(h, st)) == ""
            && StorageAfterSetup(NoAddress(h), FRESH) == StorageAfterThree(h, "", st)
  {
    KeysDiffer();
    assert SSH_KEY[0] == 's' && DNS[0] == 'D' && NEW_HOSTNAME[0] == 'N' && OLD_HOSTNAME[0] == 'O';
    assert LOCALE[0] == 'L' && INTERFACE[0] == 'I';
    assert StoredLanguage(FRESH) == "";
  }

  // ----- Write -----

  function PiExpected(h: Host, files: Files, f: ImageFile): Content {
    var was, u := Lookup(files, f), h.user;
    match f
    case InterfacesD(name) =>
      if u.address.None? && u.wifi.Some? && name == "wlan0" then Line(h, WlanDhcpText) else was
    case DhcpcdConf => if u.address.None? then was else Appended(h, was, PiInterfaceText(u.address.value))
    case BootConfigTxt => if u.piCamera then Appended(h, was, CameraText) else was
    case BootSsh => if u.piSsh && was.Absent? then Present("") else was
    case _ => Expected(h, files, f)
  }

  function PiPlanFor(k: string, st: Storage): Plan {
    if k == INTERFACE then PiInterfacePlan(st)
    else if k in {PI_SSH, PI_CAMERA} then Do([])
    else PlanFor(k, st)
  }

  lemma {:induction false} PiEffect(h: Host, st: Storage, files: Files, k: string)
    requires k in PiOrder(h)
    ensures Effect(PiOrder(h)[k], st, files) == Perform(h, Env(st, files), PiPlanFor(k, st))
  {
    KeysDiffer();
  }

  /** The storage differs from the one without a static address in that address only. */
  lemma {:induction false} PiStored(h: Host, key: string)
    requires key != INTERFACE
    ensures ValueAt(PiStorage(h), key) == ValueAt(StorageAfterSetup(NoAddress(h), FRESH), key)
    ensures Stored(PiStorage(h), key) == Stored(StorageAfterSetup(NoAddress(h), FRESH), key)
    ensures key in PiStorage(h) <==> key in StorageAfterSetup(NoAddress(h), FRESH)
  {
  }

  /** The plans that the answers lead to; those that do not concern the address are the default ones. */
  lemma {:induction false} PiSystemPlans(h: Host)
    ensures var st, st0 := PiStorage(h), StorageAfterSetup(NoAddress(h), FRESH);
            && HasSsh(st) && HasSsh(st0)
            && LocalePlan(st) == LocalePlan(st0) && KeymapPlan(st) == KeymapPlan(st0) && DnsPlan(st) == DnsPlan(st0)
  {
    FreshLocale(NoAddress(h));
    KeysDiffer();
    assert SSH_KEY != INTERFACE by { assert SSH_KEY[0] == 's' && INTERFACE[0] == 'I'; }
    PiStored(h, SSH_KEY);
    PiStored(h, LOCALE);
    PiStored(h, KEYMAP);
    PiStored(h, DNS);
  }

  lemma {:induction false} PiHostnamePlan(h: Host)
    ensures HostnamePlan(PiStorage(h)) == HostnamePlan(StorageAfterSetup(NoAddress(h), FRESH))
  {
    PiSystemPlans(h);
    assert OLD_HOSTNAME != INTERFACE && NEW_HOSTNAME != INTERFACE by {
      assert OLD_HOSTNAME[0] == 'O' && NEW_HOSTNAME[0] == 'N' && INTERFACE[0] == 'I';
    }
    PiStored(h, OLD_HOSTNAME);
    PiStored(h, NEW_HOSTNAME);
  }

  lemma {:induction false} PiNetworkPlans(h: Host)
    ensures var st, u := PiStorage(h), h.user;
            && (INTERFACE in st <==> u.address.Some?)
            && PiInterfacePlan(st) == (if u.address.None? then Do([]) else
                 Do([Task(AppendTo(DhcpcdConf, PiInterfaceText(u.address.value)), MustSucceed)]))
            && WifiPlan(st) == if u.wifi.None? then Do([]) else
                 Do([Task(Overwrite(WpaSupplicantConf, WpaText(u.wifi.value.ssid, u.wifi.value.pass)), MustSucceed)] +
                    if u.address.Some? then [] else [Task(Overwrite(InterfacesD("wlan0"), WlanDhcpText), MayFail)])
  {
    var st0 := StorageAfterSetup(NoAddress(h), FRESH);
    PiSystemPlans(h);
    FreshNetwork(NoAddress(h));
    assert ValueAt(st0, INTERFACE).None? && (INTERFACE in st0 <==> ValueAt(st0, INTERFACE).Some?);
    assert WIFI_NAME != INTERFACE && WIFI_PASS != INTERFACE by {
      assert WIFI_NAME[0] == 'W' && WIFI_PASS[0] == 'W' && INTERFACE[0] == 'I';
    }
    PiStored(h, WIFI_NAME);
    PiStored(h, WIFI_PASS);
    assert WIFI_NAME in st0 <==> ValueAt(st0, WIFI_NAME).Some?;
    assert WIFI_PASS in st0 <==> ValueAt(st0, WIFI_PASS).Some?;
  }

  lemma {:induction false} PiSucceeds(h: Host, files: Files, k: string)
    requires AllSucceed(h) && k in PiOrder(h)
    ensures PiPlanFor(k, PiStorage(h)).Do? && Effect(PiOrder(h)[k], PiStorage(h), files).verdict.Fine?
  {
    var plan := PiPlanFor(k, PiStorage(h));
    PiEffect(h, PiStorage(h), files, k);
    PiSystemPlans(h);
    PiHostnamePlan(h);
    PiNetworkPlans(h);
    FreshPlans(NoAddress(h));
    FreshHostnamePlan(NoAddress(h));
    assert plan.Do?;
    WorkSucceeds(h, files, plan.tasks);
  }

  /** After a successful Write a file is as its owner alone would have left it. */
  lemma {:induction false} PiOwnerWrites(h: Host, st: Storage, files: Files, ks: seq<string>, f: ImageFile)
    requires Enumerates(ks, PiOrder(h).Keys)
    requires Run(Apply, PiOrder(h), ks, Env(st, files)).verdict.Fine?
    ensures var final, k := Run(Apply, PiOrder(h), ks, Env(st, files)).env.files, Owner(st, f);
            Lookup(final, f) ==
            if PiHasOwner(h, st, f) then Lookup(Effect(PiOrder(h)[k], st, files).env.files, f) else Lookup(files, f)
  {
    var order, fps, e, k := PiOrder(h), PiFootprints(st), Env(st, files), Owner(st, f);
    PiIndependent(h, st);
    RunReachesTarget(order, fps, ks, e);
    PiOwned(st);
    if k in fps && f in fps[k] {
      TargetOwned(order, fps, ks, e, f, k);
    } else {
      TargetUnowned(order, fps, ks, e, f);
    }
  }

  /** A Raspberry Pi configuration in which every command succeeds leaves exactly the answers of the user on
      the image and its boot partition, whatever the iteration order of Write. */
  lemma {:induction false} PiImageReflectsAnswers(h: Host, files: Files, ks: seq<string>, f: ImageFile)
    requires AllSucceed(h) && !h.cat.failed && Enumerates(ks, PiOrder(h).Keys)
    ensures var asked := Run(Config, PiOrder(h), AscendingKeys(PiOrder(h).Keys), Env(FRESH, files));
            var written := Run(Apply, PiOrder(h), ks, asked.env);
            asked.verdict.Fine? && written.verdict.Fine? && Lookup(written.env.files, f) == PiExpected(h, files, f)
  {
    var st, booted := PiStorage(h), WithSsh(h, WithCamera(h, files));
    PiSetupStores(h, files);
    PiIndependent(h, st);
    RunReachesTarget(PiOrder(h), PiFootprints(st), ks, Env(st, booted));
    forall k | k in ks { PiSucceeds(h, booted, k); }
    PiOwnerWrites(h, st, booted, ks, f);
    PiOwnerMeetsAnswers(h, files, f);
  }

  lemma {:induction false} BootFiles(h: Host, files: Files, f: ImageFile)
    requires AllSucceed(h)
    ensures var booted := WithSsh(h, WithCamera(h, files));
            if f in {BootSsh, BootConfigTxt} then Lookup(booted, f) == PiExpected(h, files, f)
            else Lookup(booted, f) == Lookup(files, f)
  {
    ExecuteSucceeds(h, files, AppendTo(BootConfigTxt, CameraText), f);
    ExecuteSucceeds(h, WithCamera(h, files), Touch(BootSsh), f);
  }

  predicate PiHasOwner(h: Host, st: Storage, f: ImageFile) {
    var k := Owner(st, f);
    k in PiOrder(h) && k in PiFootprints(st) && f in PiFootprints(st)[k]
  }

  lemma {:induction false} PiOwnedFiles(h: Host, st: Storage, f: ImageFile)
    ensures PiHasOwner(h, st, f) <==>
            f in {LocaleConf, Environment, VconsoleConf, DhclientConf, EtcHosts, EtcHostname, WpaSupplicantConf,
                  DhcpcdConf} || (INTERFACE !in st && f == InterfacesD("wlan0"))
  {
    KeysDiffer();
    PiKeysAreKeys(h);
    var k := Owner(st, f);
    assert k == "" || k in PI_KEYS;
    assert k in PiFootprints(st) <==> k in PI_KEYS;
  }

  lemma {:induction false} PiOwnedMeet(h: Host, files: Files, f: ImageFile)
    requires AllSucceed(h) && PiHasOwner(h, PiStorage(h), f)
    ensures var st := PiStorage(h);
            Lookup(Effect(PiOrder(h)[Owner(st, f)], st, files).env.files, f) == PiExpected(h, files, f)
  {
    var st := PiStorage(h);
    PiOwnedFiles(h, st, f);
    PiEffect(h, st, files, Owner(st, f));
    if f in {LocaleConf, Environment, VconsoleConf, DhclientConf} {
      PiSystemFilesMeet(h, files, f);
    } else if f in {EtcHosts, EtcHostname} {
      PiHostFilesMeet(h, files, f);
    } else {
      PiNetworkFilesMeet(h, files, f);
    }
  }

  lemma {:induction false} PiUnownedMeet(h: Host, files: Files, f: ImageFile)
    requires !PiHasOwner(h, PiStorage(h), f) && f !in {BootSsh, BootConfigTxt}
    ensures PiExpected(h, files, f) == Lookup(files, f)
  {
    PiOwnedFiles(h, PiStorage(h), f);
    PiNetworkPlans(h);
  }

  /** What is expected of a file depends on its old content alone. */
  lemma {:induction false} PiOwnerMeetsAnswers(h: Host, files: Files, f: ImageFile)
    requires AllSucceed(h)
    ensures var st, booted := PiStorage(h), WithSsh(h, WithCamera(h, files));
            PiExpected(h, files, f) ==
            if PiHasOwner(h, st, f)
            then Lookup(Effect(PiOrder(h)[Owner(st, f)], st, booted).env.files, f) else Lookup(booted, f)
  {
    var booted := WithSsh(h, WithCamera(h, files));
    BootFiles(h, files, f);
    if PiHasOwner(h, PiStorage(h), f) {
      PiOwnedFiles(h, PiStorage(h), f);
      PiOwnedMeet(h, booted, f);
    } else if f !in {BootSsh, BootConfigTxt} {
      PiUnownedMeet(h, files, f);
    }
  }

  lemma {:induction false} PiSystemFilesMeet(h: Host, files: Files, f: ImageFile)
    requires AllSucceed(h) && f in {LocaleConf, Environment, VconsoleConf, DhclientConf}
    ensures var st := PiStorage(h);
            var plan := PiPlanFor(Owner(st, f), st);
            plan.Do? && Lookup(Work(h, files, plan.tasks).0, f) == PiExpected(h, files, f)
  {
    var st := PiStorage(h);
    KeysDiffer();
    PiSystemPlans(h);
    FreshPlans(NoAddress(h));
    PiNoKey(Owner(st, f));
    PlanLeaves(h, files, PiPlanFor(Owner(st, f), st).tasks, f);
  }

  lemma {:induction false} PiNoKey(k: string)
    requires k in {LOCALE, KEYMAP, DNS, HOSTNAME, WIFI}
    ensures k !in {PI_SSH, PI_CAMERA, INTERFACE}
  {
    KeysDiffer();
  }

  lemma {:induction false} PiHostFilesMeet(h: Host, files: Files, f: ImageFile)
    requires AllSucceed(h) && f in {EtcHosts, EtcHostname}
    ensures var st := PiStorage(h);
            var plan := PiPlanFor(Owner(st, f), st);
            plan.Do? && Lookup(Work(h, files, plan.tasks).0, f) == PiExpected(h, files, f)
  {
    var st := PiStorage(h);
    KeysDiffer();
    PiHostnamePlan(h);
    FreshHostnamePlan(NoAddress(h));
    PiNoKey(HOSTNAME);
    PlanLeaves(h, files, PiPlanFor(Owner(st, f), st).tasks, f);
  }

  lemma {:induction false} PiNetworkFilesMeet(h: Host, files: Files, f: ImageFile)
    requires AllSucceed(h) && (f.WpaSupplicantConf? || f.DhcpcdConf? || f.InterfacesD?)
    requires f.InterfacesD? ==> INTERFACE !in PiStorage(h) && f.name == "wlan0"
    ensures var st := PiStorage(h);
            var plan := PiPlanFor(Owner(st, f), st);
            plan.Do? && Lookup(Work(h, files, plan.tasks).0, f) == PiExpected(h, files, f)
  {
    var st := PiStorage(h);
    KeysDiffer();
    PiNetworkPlans(h);
    PiNoKey(WIFI);
    PlanLeaves(h, files, PiPlanFor(Owner(st, f), st).tasks, f);
  }
}
