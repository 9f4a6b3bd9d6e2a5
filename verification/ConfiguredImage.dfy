/** From the answers of the user to the files of the image: Setup followed by Write. */
module ConfiguredImage {
  import opened Text
  import opened SortedKeys
  import opened Documents
  import opened Callbacks
  import opened DefaultCallbacks
  import opened Configurator

  // ----- Setup -----

  /** The order in which Setup asks: alphabetical, so the keyboard comes before the locale. */
  const DEFAULT_KEYS := [DNS, HOSTNAME, INTERFACE, KEYMAP, LOCALE, WIFI]

  lemma {:induction false} DefaultKeysAscend(h: Host)
    ensures AscendingKeys(DefaultOrder(h).Keys) == DEFAULT_KEYS
  {
    AscendingByInitial(DEFAULT_KEYS);
    AscendingDistinct(DEFAULT_KEYS);
    DefaultKeysAreKeys(h);
    AscendingKeysUnique(DEFAULT_KEYS, DefaultOrder(h).Keys);
  }

  lemma {:induction false} DefaultKeysAreKeys(h: Host)
    ensures forall k :: k in DEFAULT_KEYS <==> k in DefaultOrder(h)
  {
  }

  /** Run a list from the front. */
  lemma {:induction false} RunCons(phase: Phase, order: map<string, CallbackFn>, k: string, ks: seq<string>, e: Env)
    requires forall x :: x in [k] + ks ==> x in order
    ensures forall x :: x in ks ==> x in order
    ensures k in order
    ensures var o := Step(phase, order[k], e);
            Run(phase, order, [k] + ks, e) == if o.verdict.Stop? then o else Run(phase, order, ks, o.env)
    decreases |ks|
  {
    var all := [k] + ks;
    assert forall x :: x in ks ==> x in all;
    assert k in all;
    if ks == [] {
      assert all[..0] == [];
      assert Run(phase, order, [], e) == Outcome(e, Fine);
    } else {
      var front := ks[..|ks| - 1];
      assert all[..|all| - 1] == [k] + front;
      RunCons(phase, order, k, front, e);
    }
  }

  /** The storage after the first two and after all default questions, when no callback stops them. */
  function StorageAfterTwo(h: Host, st: Storage): Storage {
    var st1 := if h.user.secondaryDns then st[DNS := Flag] else st;
    if h.user.hostname.Some? && Blank(h.cat.eut)
    then st1[NEW_HOSTNAME := Text(Plain(h.user.hostname.value))][OLD_HOSTNAME := Text(Plain(h.hostname))] else st1
  }

  function StorageAfterSetup(h: Host, st: Storage): Storage {
    var st2 := StorageAfterTwo(h, st);
    var st3 := if h.user.address.Some?
               then st2[INTERFACE := Text(InterfaceText(h.user.address.value))]
                       [INTERFACE_NAME := Text(Plain(DeviceName(h.user.address.value.device)))] else st2;
    var keyboard := h.user.keyboard(StoredLanguage(st));
    var st4 := if keyboard.Some? then st3[KEYMAP := Text(KeymapText(keyboard.value))] else st3;
    var st5 := if h.user.locale.Some? then st4[LOCALE := Text(Plain(h.user.locale.value))] else st4;
    if h.user.wifi.None? then st5
    else st5[WIFI_NAME := Text(Plain(h.user.wifi.value.ssid))][WIFI_PASS := Text(Plain(h.user.wifi.value.pass))]
  }

  const LAST_FOUR := [INTERFACE, KEYMAP, LOCALE, WIFI]

  lemma {:induction false} KnownKeys(h: Host, ks: seq<string>)
    requires forall k :: k in ks ==> k in DEFAULT_KEYS
    ensures forall k :: k in ks ==> k in DefaultOrder(h)
  {
  }

  lemma {:induction false} RunFirstTwo(h: Host, e: Env)
    ensures forall k :: k in DEFAULT_KEYS ==> k in DefaultOrder(h)
    ensures forall k :: k in LAST_FOUR ==> k in DefaultOrder(h)
    ensures var o := SetHostname(h, SetSecondaryDNS(h, e).env);
            Run(Config, DefaultOrder(h), DEFAULT_KEYS, e) ==
            if o.verdict.Stop? then o else Run(Config, DefaultOrder(h), LAST_FOUR, o.env)
  {
    var order := DefaultOrder(h);
    KeysDiffer();
    KnownKeys(h, DEFAULT_KEYS);
    assert DEFAULT_KEYS == [DNS] + ([HOSTNAME] + LAST_FOUR);
    RunCons(Config, order, DNS, [HOSTNAME] + LAST_FOUR, e);
    RunCons(Config, order, HOSTNAME, LAST_FOUR, SetSecondaryDNS(h, e).env);
  }

  lemma {:induction false} RunLastFour(h: Host, e: Env)
    ensures forall k :: k in LAST_FOUR ==> k in DefaultOrder(h)
    ensures Run(Config, DefaultOrder(h), LAST_FOUR, e) ==
            SetWifi(h, SetLocale(h, SetKeyboard(h, SetInterface(h, e).env).env).env)
  {
    var order := DefaultOrder(h);
    KeysDiffer();
    KnownKeys(h, LAST_FOUR);
    assert LAST_FOUR == [INTERFACE] + [KEYMAP, LOCALE, WIFI];
    RunCons(Config, order, INTERFACE, [KEYMAP, LOCALE, WIFI], e);
    var e1 := SetInterface(h, e).env;
    assert [KEYMAP, LOCALE, WIFI] == [KEYMAP] + [LOCALE, WIFI];
    RunCons(Config, order, KEYMAP, [LOCALE, WIFI], e1);
    var e2 := SetKeyboard(h, e1).env;
    assert [LOCALE, WIFI] == [LOCALE] + [WIFI];
    RunCons(Config, order, LOCALE, [WIFI], e2);
    var e3 := SetLocale(h, e2).env;
    assert [WIFI] == [WIFI] + [];
    RunCons(Config, order, WIFI, [], e3);
  }

  lemma {:induction false} LanguageBeforeKeyboard(h: Host, st: Storage, files: Files)
    ensures StoredLanguage(SetInterface(h, Env(StorageAfterTwo(h, st), files)).env.storage) == StoredLanguage(st)
  {
    KeysDiffer();
    assert LOCALE[0] == 'L' && NEW_HOSTNAME[0] == 'N' && OLD_HOSTNAME[0] == 'O' && INTERFACE_NAME[0] == 'I';
  }

  /** Setup succeeds exactly when the old host name can be read, and the layouts it offers are narrowed down
      by the locale stored before, never by the one chosen in the same Setup. */
  lemma {:induction false} SetupStores(h: Host, st: Storage, files: Files)
    ensures var o := Run(Config, DefaultOrder(h), AscendingKeys(DefaultOrder(h).Keys), Env(st, files));
            && (o.verdict.Fine? <==> HasSsh(st) && !h.cat.failed)
            && (o.verdict.Fine? ==> o.env == Env(StorageAfterSetup(h, st), files))
  {
    DefaultKeysAscend(h);
    RunFirstTwo(h, Env(st, files));
    var o := SetHostname(h, SetSecondaryDNS(h, Env(st, files)).env);
    assert HasSsh(SetSecondaryDNS(h, Env(st, files)).env.storage) <==> HasSsh(st) by {
      assert SSH_KEY[0] == 's' && DNS[0] == 'D';
    }
    if o.verdict.Fine? {
      assert o.env == Env(StorageAfterTwo(h, st), files);
      RunLastFour(h, o.env);
      LanguageBeforeKeyboard(h, st, files);
    }
  }

  // ----- Setup, then Write -----

  const FRESH: Storage := map[SSH_KEY := Ssh]

  /** Every command on the image succeeds silently. */
  ghost predicate AllSucceed(h: Host) {
    forall cmd, was :: !h.reply(cmd, was).failed && Blank(h.reply(cmd, was).eut)
  }

  function Line(h: Host, doc: Document): Content {
    Present(h.expand(Render(doc)) + "\n")
  }

  function Appended(h: Host, was: Content, doc: Document): Content {
    Present((if was.Present? then was.text else "") + h.expand(Render(doc)) + "\n")
  }

  function Renamed(h: Host, was: Content): Content {
    if was.Present? && h.user.hostname.Some? && Blank(h.cat.eut)
    then Present(h.sed(h.hostname, h.user.hostname.value, was.text)) else was
  }

  /** What the answers of the user make of a file. */
  function Expected(h: Host, files: Files, f: ImageFile): Content {
    var was, u := Lookup(files, f), h.user;
    match f
    case LocaleConf =>
      if u.locale.None? then was else Line(h, LocaleConfText(u.locale.value))
    case Environment => if u.locale.None? then was else Line(h, EnvironmentText(u.locale.value))
    case VconsoleConf =>
      if u.keyboard("").None? then was else Line(h, KeymapText(u.keyboard("").value))
    case WpaSupplicantConf => if u.wifi.None? then was else Line(h, WpaText(u.wifi.value.ssid, u.wifi.value.pass))
    case InterfacesD(name) =>
      if u.address.Some? then
        if name == DeviceName(u.address.value.device) then Line(h, InterfaceText(u.address.value)) else was
      else if u.wifi.Some? && name == "wlan0" then Line(h, WlanDhcpText) else was
    case DhclientConf =>
      if u.secondaryDns then Appended(h, was, NameServersText) else was
    case EtcHosts => Renamed(h, was)
    case EtcHostname => Renamed(h, was)
    case _ => was
  }

  function ValueAt(st: Storage, key: string): Option<Value> {
    if key in st then Some(st[key]) else None
  }

  function TextIf(answer: Option<string>): Option<Value> {
    if answer.None? then None else Some(Text(Plain(answer.value)))
  }

  /** What the storage says after the dialogs of a fresh configurator. */
  lemma {:induction false} FreshLocale(h: Host)
    ensures var st, u := StorageAfterSetup(h, FRESH), h.user;
            && HasSsh(st)
            && ValueAt(st, DNS) == (if u.secondaryDns then Some(Flag) else None)
            && ValueAt(st, LOCALE) == TextIf(u.locale)
            && ValueAt(st, KEYMAP) ==
               if u.keyboard("").None? then None else Some(Text(KeymapText(u.keyboard("").value)))
  {
    KeysDiffer();
  }

  lemma {:induction false} FreshNetwork(h: Host)
    ensures var st, u := StorageAfterSetup(h, FRESH), h.user;
            && ValueAt(st, WIFI_NAME) == (if u.wifi.None? then None else Some(Text(Plain(u.wifi.value.ssid))))
            && ValueAt(st, WIFI_PASS) == (if u.wifi.None? then None else Some(Text(Plain(u.wifi.value.pass))))
            && ValueAt(st, INTERFACE) == (if u.address.None? then None else Some(Text(InterfaceText(u.address.value))))
            && ValueAt(st, INTERFACE_NAME) ==
               if u.address.None? then None else Some(Text(Plain(DeviceName(u.address.value.device))))
  {
  }

  lemma {:induction false} FreshHostname(h: Host)
    ensures var st, asked := StorageAfterSetup(h, FRESH), h.user.hostname.Some? && Blank(h.cat.eut);
            && ValueAt(st, OLD_HOSTNAME) == (if asked then Some(Text(Plain(h.hostname))) else None)
            && ValueAt(st, NEW_HOSTNAME) == (if asked then Some(Text(Plain(h.user.hostname.value))) else None)
  {
  }

  lemma {:induction false} WorkSucceeds(h: Host, files: Files, tasks: seq<Task>)
    requires AllSucceed(h)
    ensures Work(h, files, tasks).1.Fine?
    decreases |tasks|
  {
    if tasks != [] {
      WorkSucceeds(h, Execute(h, files, tasks[0].cmd).0, tasks[1..]);
    }
  }

  /** After a successful Write a file is as its owner alone would have left it. */
  lemma {:induction false} OwnerWrites(h: Host, st: Storage, files: Files, ks: seq<string>, f: ImageFile)
    requires Enumerates(ks, DefaultOrder(h).Keys)
    requires Run(Apply, DefaultOrder(h), ks, Env(st, files)).verdict.Fine?
    ensures var final, k := Run(Apply, DefaultOrder(h), ks, Env(st, files)).env.files, Owner(st, f);
            Lookup(final, f) ==
            if HasOwner(h, st, f)
            then Lookup(Effect(DefaultOrder(h)[k], st, files).env.files, f) else Lookup(files, f)
  {
    var order, fps, e, k := DefaultOrder(h), DefaultFootprints(st), Env(st, files), Owner(st, f);
    DefaultIndependent(h, st);
    RunReachesTarget(order, fps, ks, e);
    DefaultOwned(st);
    if k in fps && f in fps[k] {
      TargetOwned(order, fps, ks, e, f, k);
    } else {
      TargetUnowned(order, fps, ks, e, f);
    }
  }

  /** The plans that the answers lead to. */
  lemma {:induction false} FreshPlans(h: Host)
    ensures var st, u := StorageAfterSetup(h, FRESH), h.user;
            && LocalePlan(st) == (if u.locale.None? then Do([]) else
                 Do([Task(Overwrite(LocaleConf, LocaleConfText(u.locale.value)), MustSucceed),
                     Task(Overwrite(Environment, EnvironmentText(u.locale.value)), MustSucceed)]))
            && KeymapPlan(st) == (if u.keyboard("").None? then Do([]) else
                 Do([Task(Overwrite(VconsoleConf, KeymapText(u.keyboard("").value)), MustSucceed)]))
            && DnsPlan(st) == (if !u.secondaryDns then Do([]) else
                 Do([Task(AppendTo(DhclientConf, NameServersText), MustSucceed)]))
  {
    FreshLocale(h);
    var st := StorageAfterSetup(h, FRESH);
    assert LOCALE in st <==> ValueAt(st, LOCALE).Some?;
    assert KEYMAP in st <==> ValueAt(st, KEYMAP).Some?;
    assert DNS in st <==> ValueAt(st, DNS).Some?;
  }

  lemma {:induction false} FreshInterfacePlan(h: Host)
    ensures var st, u := StorageAfterSetup(h, FRESH), h.user;
            && (INTERFACE in st <==> u.address.Some?)
            && InterfaceFiles(st) == (if u.address.None? then {} else {InterfacesD(DeviceName(u.address.value.device))})
            && InterfacePlan(st) == if u.address.None? then Do([]) else
                 Do([Task(Overwrite(InterfacesD(DeviceName(u.address.value.device)), InterfaceText(u.address.value)),
                          MustSucceed)])
  {
    FreshLocale(h);
    FreshNetwork(h);
    var st := StorageAfterSetup(h, FRESH);
    assert INTERFACE in st <==> ValueAt(st, INTERFACE).Some?;
    assert INTERFACE_NAME in st <==> ValueAt(st, INTERFACE_NAME).Some?;
  }

  lemma {:induction false} FreshWifiPlan(h: Host)
    ensures var st, u := StorageAfterSetup(h, FRESH), h.user;
            WifiPlan(st) == if u.wifi.None? then Do([]) else
              Do([Task(Overwrite(WpaSupplicantConf, WpaText(u.wifi.value.ssid, u.wifi.value.pass)), MustSucceed)] +
                 if u.address.Some? then [] else [Task(Overwrite(InterfacesD("wlan0"), WlanDhcpText), MayFail)])
  {
    FreshLocale(h);
    FreshNetwork(h);
    var st := StorageAfterSetup(h, FRESH);
    assert WIFI_NAME in st <==> ValueAt(st, WIFI_NAME).Some?;
    assert WIFI_PASS in st <==> ValueAt(st, WIFI_PASS).Some?;
    assert INTERFACE in st <==> ValueAt(st, INTERFACE).Some?;
  }

  lemma {:induction false} FreshHostnamePlan(h: Host)
    ensures HostnamePlan(StorageAfterSetup(h, FRESH)) ==
            if h.user.hostname.None? || !Blank(h.cat.eut) then Do([]) else
              Do([Task(Substitute(EtcHosts, h.hostname, h.user.hostname.value), WatchStderr),
                  Task(Substitute(EtcHostname, h.hostname, h.user.hostname.value), WatchStderr)])
  {
    FreshLocale(h);
    FreshHostname(h);
    var st := StorageAfterSetup(h, FRESH);
    assert OLD_HOSTNAME in st <==> ValueAt(st, OLD_HOSTNAME).Some?;
    assert NEW_HOSTNAME in st <==> ValueAt(st, NEW_HOSTNAME).Some?;
  }

  function PlanFor(k: string, st: Storage): Plan {
    if k == LOCALE then LocalePlan(st)
    else if k == KEYMAP then KeymapPlan(st)
    else if k == WIFI then WifiPlan(st)
    else if k == INTERFACE then InterfacePlan(st)
    else if k == DNS then DnsPlan(st)
    else HostnamePlan(st)
  }

  lemma {:induction false} EffectOfPlan(h: Host, st: Storage, files: Files, k: string)
    requires k in DefaultOrder(h)
    ensures Effect(DefaultOrder(h)[k], st, files) == Perform(h, Env(st, files), PlanFor(k, st))
  {
    KeysDiffer();
  }

  lemma {:induction false} DefaultsSucceed(h: Host, files: Files, k: string)
    requires AllSucceed(h) && k in DefaultOrder(h)
    ensures PlanFor(k, StorageAfterSetup(h, FRESH)).Do?
    ensures Effect(DefaultOrder(h)[k], StorageAfterSetup(h, FRESH), files).verdict.Fine?
  {
    var plan := PlanFor(k, StorageAfterSetup(h, FRESH));
    EffectOfPlan(h, StorageAfterSetup(h, FRESH), files, k);
    FreshPlans(h);
    FreshInterfacePlan(h);
    FreshWifiPlan(h);
    FreshHostnamePlan(h);
    WorkSucceeds(h, files, plan.tasks);
  }

  /** Silent success: one task after the other takes effect. */
  lemma {:induction false} WorkThrough(h: Host, files: Files, t: Task, rest: seq<Task>)
    requires AllSucceed(h)
    ensures Work(h, files, [t] + rest).0 == Work(h, Execute(h, files, t.cmd).0, rest).0
    ensures Work(h, files, []).0 == files
  {
    assert ([t] + rest)[1..] == rest;
  }

  /** ... and leaves this in the file it names, and nothing elsewhere. */
  function After(h: Host, was: Content, cmd: Command): Content {
    match cmd
    case Overwrite(_, doc) => Line(h, doc)
    case AppendTo(_, doc) => Appended(h, was, doc)
    case Substitute(_, old_, new_) => if was.Present? then Present(h.sed(old_, new_, was.text)) else was
    case Touch(_) => if was.Present? then was else Present("")
  }

  lemma {:induction false} ExecuteSucceeds(h: Host, files: Files, cmd: Command, f: ImageFile)
    requires AllSucceed(h)
    ensures Lookup(Execute(h, files, cmd).0, f) ==
            if f == cmd.file then After(h, Lookup(files, f), cmd) else Lookup(files, f)
  {
    assert !h.reply(cmd, Lookup(files, cmd.file)).failed;
  }

  /** The image after a plan of at most two tasks on different files. */
  lemma {:induction false} PlanLeaves(h: Host, files: Files, tasks: seq<Task>, f: ImageFile)
    requires AllSucceed(h) && |tasks| <= 2
    requires |tasks| == 2 ==> tasks[0].cmd.file != tasks[1].cmd.file
    ensures Lookup(Work(h, files, tasks).0, f) ==
            if |tasks| > 0 && f == tasks[0].cmd.file then After(h, Lookup(files, f), tasks[0].cmd)
            else if |tasks| > 1 && f == tasks[1].cmd.file then After(h, Lookup(files, f), tasks[1].cmd)
            else Lookup(files, f)
  {
    if tasks != [] {
      var next := Execute(h, files, tasks[0].cmd).0;
      assert tasks == [tasks[0]] + tasks[1..];
      WorkThrough(h, files, tasks[0], tasks[1..]);
      ExecuteSucceeds(h, files, tasks[0].cmd, f);
      if |tasks| > 1 {
        assert tasks[1..] == [tasks[1]] + [];
        WorkThrough(h, next, tasks[1], []);
        ExecuteSucceeds(h, next, tasks[1].cmd, f);
      } else {
        WorkThrough(h, next, tasks[0], []);
      }
    }
  }

  /** A configuration in which every command succeeds leaves exactly the answers of the user on the image,
      whatever the iteration order of Write: every file the answers concern, and no other. */
  lemma {:induction false} ImageReflectsAnswers(h: Host, files: Files, ks: seq<string>, f: ImageFile)
    requires AllSucceed(h) && !h.cat.failed && Enumerates(ks, DefaultOrder(h).Keys)
    ensures var asked := Run(Config, DefaultOrder(h), AscendingKeys(DefaultOrder(h).Keys), Env(FRESH, files));
            var written := Run(Apply, DefaultOrder(h), ks, asked.env);
            && asked.verdict.Fine? && asked.env.files == files
            && written.verdict.Fine?
            && Lookup(written.env.files, f) == Expected(h, files, f)
  {
    var st := StorageAfterSetup(h, FRESH);
    SetupStores(h, FRESH, files);
    DefaultIndependent(h, st);
    RunReachesTarget(DefaultOrder(h), DefaultFootprints(st), ks, Env(st, files));
    forall k | k in ks { DefaultsSucceed(h, files, k); }
    OwnerWrites(h, st, files, ks, f);
    OwnerMeetsAnswers(h, files, f);
  }

  /** The plans of the owners leave what is expected. */
  lemma {:induction false} SystemFilesMeet(h: Host, files: Files, f: ImageFile)
    requires AllSucceed(h) && f in {LocaleConf, Environment, VconsoleConf, DhclientConf}
    ensures var st := StorageAfterSetup(h, FRESH);
            var plan := PlanFor(Owner(st, f), st);
            plan.Do? && Lookup(Work(h, files, plan.tasks).0, f) == Expected(h, files, f)
  {
    var st := StorageAfterSetup(h, FRESH);
    KeysDiffer();
    FreshPlans(h);
    PlanLeaves(h, files, PlanFor(Owner(st, f), st).tasks, f);
  }

  lemma {:induction false} HostFilesMeet(h: Host, files: Files, f: ImageFile)
    requires AllSucceed(h) && f in {EtcHosts, EtcHostname}
    ensures var st := StorageAfterSetup(h, FRESH);
            var plan := PlanFor(Owner(st, f), st);
            plan.Do? && Lookup(Work(h, files, plan.tasks).0, f) == Expected(h, files, f)
  {
    var st := StorageAfterSetup(h, FRESH);
    HostPlan(st, f);
    HostPlanLeaves(h, files, HostnamePlan(st), f);
  }

  lemma {:induction false} HostPlan(st: Storage, f: ImageFile)
    requires f in {EtcHosts, EtcHostname}
    ensures PlanFor(Owner(st, f), st) == HostnamePlan(st)
  {
    KeysDiffer();
  }

  lemma {:induction false} HostPlanLeaves(h: Host, files: Files, plan: Plan, f: ImageFile)
    requires AllSucceed(h) && f in {EtcHosts, EtcHostname} && plan == HostnamePlan(StorageAfterSetup(h, FRESH))
    ensures plan.Do? && Lookup(Work(h, files, plan.tasks).0, f) == Renamed(h, Lookup(files, f))
  {
    FreshHostnamePlan(h);
    if h.user.hostname.Some? && Blank(h.cat.eut) {
      RenamingLeaves(h, files, h.hostname, h.user.hostname.value, f);
    }
  }

  lemma {:induction false} RenamingLeaves(h: Host, files: Files, was: string, becomes: string, f: ImageFile)
    requires AllSucceed(h) && f in {EtcHosts, EtcHostname}
    ensures var tasks := [Task(Substitute(EtcHosts, was, becomes), WatchStderr),
                          Task(Substitute(EtcHostname, was, becomes), WatchStderr)];
            Lookup(Work(h, files, tasks).0, f) ==
            if Lookup(files, f).Present? then Present(h.sed(was, becomes, Lookup(files, f).text)) else Absent
  {
    PlanLeaves(h, files, [Task(Substitute(EtcHosts, was, becomes), WatchStderr),
                          Task(Substitute(EtcHostname, was, becomes), WatchStderr)], f);
  }

  lemma {:induction false} NetworkFilesMeet(h: Host, files: Files, f: ImageFile)
    requires AllSucceed(h) && (f.WpaSupplicantConf? || f.InterfacesD?)
    ensures var st := StorageAfterSetup(h, FRESH);
            var plan := PlanFor(Owner(st, f), st);
            plan.Do? && Lookup(Work(h, files, plan.tasks).0, f) == Expected(h, files, f)
  {
    var st := StorageAfterSetup(h, FRESH);
    KeysDiffer();
    FreshInterfacePlan(h);
    FreshWifiPlan(h);
    PlanLeaves(h, files, PlanFor(Owner(st, f), st).tasks, f);
  }

  predicate HasOwner(h: Host, st: Storage, f: ImageFile) {
    var k := Owner(st, f);
    k in DefaultFootprints(st) && f in DefaultFootprints(st)[k] && k in DefaultOrder(h)
  }

  lemma {:induction false} AlwaysOwned(h: Host, st: Storage, f: ImageFile)
    requires f in {LocaleConf, Environment, VconsoleConf, DhclientConf, EtcHosts, EtcHostname, WpaSupplicantConf}
    ensures HasOwner(h, st, f)
  {
    KeysDiffer();
  }

  lemma {:induction false} InterfaceOwned(h: Host, st: Storage, name: string)
    ensures HasOwner(h, st, InterfacesD(name)) <==>
            if INTERFACE in st then InterfacesD(name) in InterfaceFiles(st) else name == "wlan0"
  {
    KeysDiffer();
  }

  lemma {:induction false} UnownedMeet(h: Host, files: Files, f: ImageFile)
    requires !HasOwner(h, StorageAfterSetup(h, FRESH), f)
    ensures Expected(h, files, f) == Lookup(files, f)
  {
    var st := StorageAfterSetup(h, FRESH);
    if f.InterfacesD? {
      FreshInterfacePlan(h);
      InterfaceOwned(h, st, f.name);
    } else if f in {LocaleConf, Environment, VconsoleConf, DhclientConf, EtcHosts, EtcHostname, WpaSupplicantConf} {
      AlwaysOwned(h, st, f);
    }
  }

  lemma {:induction false} OwnerMeetsAnswers(h: Host, files: Files, f: ImageFile)
    requires AllSucceed(h)
    ensures var st := StorageAfterSetup(h, FRESH);
            var k := Owner(st, f);
            Expected(h, files, f) ==
            if HasOwner(h, st, f)
            then Lookup(Effect(DefaultOrder(h)[k], st, files).env.files, f) else Lookup(files, f)
  {
    var st := StorageAfterSetup(h, FRESH);
    var k := Owner(st, f);
    if !HasOwner(h, st, f) {
      UnownedMeet(h, files, f);
    } else {
      DefaultOwned(st);
      EffectOfPlan(h, st, files, k);
      FootprintFiles(st, f, k);
      if f in {LocaleConf, Environment, VconsoleConf, DhclientConf} {
        SystemFilesMeet(h, files, f);
      } else if f in {EtcHosts, EtcHostname} {
        HostFilesMeet(h, files, f);
      } else {
        NetworkFilesMeet(h, files, f);
      }
    }
  }

  lemma {:induction false} FootprintFiles(st: Storage, f: ImageFile, k: string)
    requires k in DefaultFootprints(st) && f in DefaultFootprints(st)[k]
    ensures f in {LocaleConf, Environment, VconsoleConf, DhclientConf, EtcHosts, EtcHostname} ||
            f.WpaSupplicantConf? || f.InterfacesD?
  {
  }
}
