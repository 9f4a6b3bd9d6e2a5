/** The default callbacks of `device/config/configurator.go`, and the ones with which `device/rasppi.go`
    replaces or extends them. */
module DefaultCallbacks {
  import opened Text
  import opened Documents
  import opened Callbacks

  // ----- the machine behind SSH and the user in front of the dialogs -----

  datatype Command =
    | Overwrite(file: ImageFile, doc: Document)
    | AppendTo(file: ImageFile, doc: Document)
    | Substitute(file: ImageFile, was: string, becomes: string)
    | Touch(file: ImageFile)

  datatype Reply = Reply(failed: bool, eut: string)

  datatype Wifi = Wifi(ssid: string, pass: string)

  /** What the dialogs answer; `None` is a declined question. The keyboard layouts on offer depend on the
      locale that is passed in. */
  datatype User = User(locale: Option<string>, keyboard: string -> Option<string>, wifi: Option<Wifi>,
                       address: Option<StaticAddress>, secondaryDns: bool, hostname: Option<string>,
                       piSsh: bool, piCamera: bool)

  /** The reply to a command depends on the command and on the file it works on; `expand` is what the remote
      shell makes of a quoted text, `sed` what a substitution makes of a file. */
  datatype Host = Host(reply: (Command, Content) -> Reply, expand: string -> string,
                       sed: (string, string, string) -> string, cat: Reply, hostname: string, user: User)

  function Execute(h: Host, files: Files, cmd: Command): (Files, Reply) {
    var was := Lookup(files, cmd.file);
    var r := h.reply(cmd, was);
    if r.failed then (files, r)
    else
      match cmd
      case Overwrite(f, doc) => (files[f := h.expand(Render(doc)) + "\n"], r)
      case AppendTo(f, doc) =>
        (files[f := (if was.Present? then was.text else "") + h.expand(Render(doc)) + "\n"], r)
      case Substitute(f, old_, new_) =>
        (if was.Present? then files[f := h.sed(old_, new_, was.text)] else files, r)
      case Touch(f) => (if was.Present? then files else files[f := ""], r)
  }

  /** How `%s` prints a stored value. */
  function Show(v: Value): string {
    match v
    case Text(doc) => Render(doc)
    case Flag => "%!s(bool=true)"
    case Ssh => "ssh"
  }

  const LOCALE := "Locale"
  const KEYMAP := "Keymap"
  const WIFI := "Wifi"
  const INTERFACE := "Interface"
  const DNS := "DNS"
  const HOSTNAME := "Hostname"
  const WIFI_NAME := "Wifi_name"
  const WIFI_PASS := "Wifi_pass"
  const INTERFACE_NAME := "InterfaceName"
  const OLD_HOSTNAME := "OldHostname"
  const NEW_HOSTNAME := "NewHostname"
  const SSH_KEY := "ssh"
  const PI_SSH := "SSH"
  const PI_CAMERA := "Camera"

  predicate HasSsh(st: Storage) {
    SSH_KEY in st && st[SSH_KEY].Ssh?
  }

  // ----- what the Save callbacks do -----

  /** How a callback takes the reply to a command: a failure ends it with an error, or is only logged; with
      `WatchStderr` text on the error channel of a successful command ends it without an error. */
  datatype Policy = MustSucceed | MayFail | WatchStderr

  datatype Task = Task(cmd: Command, policy: Policy)

  /** The commands a callback issues for a storage, or the error it returns instead. */
  datatype Plan = Refuse(error: Error) | Do(tasks: seq<Task>)

  function Work(h: Host, files: Files, tasks: seq<Task>): (Files, Verdict)
    decreases |tasks|
  {
    if tasks == [] then (files, Fine)
    else
      var (next, r) := Execute(h, files, tasks[0].cmd);
      if r.failed && !tasks[0].policy.MayFail? then (next, Stop(Failed(r.eut)))
      else if tasks[0].policy.WatchStderr? && !Blank(r.eut) then (next, Fine)
      else Work(h, next, tasks[1..])
  }

  function Perform(h: Host, e: Env, plan: Plan): Outcome {
    match plan
    case Refuse(error) => Outcome(e, Stop(error))
    case Do(tasks) => var (files, verdict) := Work(h, e.files, tasks); Outcome(e.(files := files), verdict)
  }

  /** Nothing without the keys, an error without the connection. */
  function When(st: Storage, keys: set<string>, tasks: seq<Task>): Plan {
    if !(keys <= st.Keys) then Do([]) else if !HasSsh(st) then Refuse(NoSsh) else Do(tasks)
  }

  /** A stored value as it goes into a text; a missing one prints as Go prints nil. */
  function Stored(st: Storage, key: string): Document {
    if key !in st then Plain("%!s(<nil>)") else if st[key].Text? then st[key].doc else Plain(Show(st[key]))
  }

  function LocalePlan(st: Storage): Plan {
    var l := Render(Stored(st, LOCALE));
    When(st, {LOCALE}, [Task(Overwrite(LocaleConf, LocaleConfText(l)), MustSucceed),
                        Task(Overwrite(Environment, EnvironmentText(l)), MustSucceed)])
  }

  function KeymapPlan(st: Storage): Plan {
    When(st, {KEYMAP}, [Task(Overwrite(VconsoleConf, Stored(st, KEYMAP)), MustSucceed)])
  }

  /** The wireless network; without a static interface also a dynamic one for wlan0, whose failure is only
      logged. */
  function WifiPlan(st: Storage): Plan {
    When(st, {WIFI_NAME},
         [Task(Overwrite(WpaSupplicantConf, WpaText(Render(Stored(st, WIFI_NAME)), Render(Stored(st, WIFI_PASS)))),
               MustSucceed)] +
         if INTERFACE in st then [] else [Task(Overwrite(InterfacesD("wlan0"), WlanDhcpText), MayFail)])
  }

  /** The static interface. Its name must be a string, or the program panics. */
  function InterfacePlan(st: Storage): Plan {
    if INTERFACE !in st || INTERFACE_NAME !in st then Do([])
    else if !HasSsh(st) then Refuse(NoSsh)
    else if !st[INTERFACE_NAME].Text? then Refuse(BadType)
    else Do([Task(Overwrite(InterfacesD(Render(st[INTERFACE_NAME].doc)), Stored(st, INTERFACE)), MustSucceed)])
  }

  function DnsPlan(st: Storage): Plan {
    When(st, {DNS}, [Task(AppendTo(DhclientConf, NameServersText), MustSucceed)])
  }

  /** Both host files. Text on the error channel of the first substitution leaves the second file as it is
      and is no error. */
  function HostnamePlan(st: Storage): Plan {
    var was, becomes := Render(Stored(st, OLD_HOSTNAME)), Render(Stored(st, NEW_HOSTNAME));
    When(st, {OLD_HOSTNAME, NEW_HOSTNAME}, [Task(Substitute(EtcHosts, was, becomes), WatchStderr),
                                            Task(Substitute(EtcHostname, was, becomes), WatchStderr)])
  }

  /** The static interface of a Raspberry Pi goes into dhcpcd.conf. */
  function PiInterfacePlan(st: Storage): Plan {
    When(st, {INTERFACE}, [Task(AppendTo(DhcpcdConf, Stored(st, INTERFACE)), MustSucceed)])
  }

  // ----- what the Set callbacks store -----

  function SetLocale(h: Host, e: Env): Outcome {
    match h.user.locale
    case None => Outcome(e, Fine)
    case Some(l) => Outcome(e.(storage := e.storage[LOCALE := Text(Plain(l))]), Fine)
  }

  /** The part of a locale name before its territory or encoding. */
  function Language(l: string): string {
    if l == "" || l[0] == '_' || l[0] == '.' then "" else [l[0]] + Language(l[1..])
  }

  /** The name is cut at its first underscore or dot. */
  lemma {:induction false} LanguageIsCut(a: string, b: string)
    requires '_' !in a && '.' !in a && (b == "" || b[0] == '_' || b[0] == '.')
    ensures Language(a + b) == a
    decreases |a|
  {
    if a == "" {
      assert a + b == b;
    } else {
      LanguageIsCut(a[1..], b);
      assert (a + b)[1..] == a[1..] + b && a[0] in a;
      assert forall c :: c in a[1..] ==> c in a;
    }
  }

  /** The language by which SetKeyboard narrows down the layouts. */
  function StoredLanguage(st: Storage): string {
    if LOCALE in st && st[LOCALE].Text? then Language(Render(st[LOCALE].doc)) else ""
  }

  function SetKeyboard(h: Host, e: Env): Outcome {
    match h.user.keyboard(StoredLanguage(e.storage))
    case None => Outcome(e, Fine)
    case Some(l) => Outcome(e.(storage := e.storage[KEYMAP := Text(KeymapText(l))]), Fine)
  }

  function SetWifi(h: Host, e: Env): Outcome {
    match h.user.wifi
    case None => Outcome(e, Fine)
    case Some(w) =>
      Outcome(e.(storage := e.storage[WIFI_NAME := Text(Plain(w.ssid))][WIFI_PASS := Text(Plain(w.pass))]), Fine)
  }

  function SetInterface(h: Host, e: Env): Outcome {
    match h.user.address
    case None => Outcome(e, Fine)
    case Some(a) =>
      var st := e.storage[INTERFACE := Text(InterfaceText(a))];
      Outcome(e.(storage := st[INTERFACE_NAME := Text(Plain(DeviceName(a.device)))]), Fine)
  }

  function SetSecondaryDNS(h: Host, e: Env): Outcome {
    if h.user.secondaryDns then Outcome(e.(storage := e.storage[DNS := Flag]), Fine) else Outcome(e, Fine)
  }

  /** Reads the current name from the image first; text on the error channel skips the question. */
  function SetHostname(h: Host, e: Env): Outcome {
    if !HasSsh(e.storage) then Outcome(e, Stop(NoSsh))
    else if h.cat.failed then Outcome(e, Stop(Failed(h.cat.eut)))
    else if !Blank(h.cat.eut) || h.user.hostname.None? then Outcome(e, Fine)
    else
      var st := e.storage[NEW_HOSTNAME := Text(Plain(h.user.hostname.value))];
      Outcome(e.(storage := st[OLD_HOSTNAME := Text(Plain(h.hostname))]), Fine)
  }

  function SetPiInterface(h: Host, e: Env): Outcome {
    match h.user.address
    case None => Outcome(e, Fine)
    case Some(a) => Outcome(e.(storage := e.storage[INTERFACE := Text(PiInterfaceText(a))]), Fine)
  }

  function EnablePiSsh(h: Host, e: Env): Outcome {
    if !h.user.piSsh then Outcome(e, Fine)
    else if !HasSsh(e.storage) then Outcome(e, Stop(NoSsh))
    else Perform(h, e, Do([Task(Touch(BootSsh), MustSucceed)]))
  }

  function EnablePiCamera(h: Host, e: Env): Outcome {
    if !h.user.piCamera then Outcome(e, Fine)
    else if !HasSsh(e.storage) then Outcome(e, Stop(NoSsh))
    else Perform(h, e, Do([Task(AppendTo(BootConfigTxt, CameraText), MustSucceed)]))
  }

  // ----- the default callbacks -----

  /** A default callback: a dialog for the configuration, a plan for the image. */
  function Fn(h: Host, config: Callback, plan: Storage -> Plan): CallbackFn {
    CallbackFn(Some(config), Some((e: Env) => Perform(h, e, plan(e.storage))))
  }

  function LocaleFn(h: Host): CallbackFn { Fn(h, e => SetLocale(h, e), LocalePlan) }
  function KeymapFn(h: Host): CallbackFn { Fn(h, e => SetKeyboard(h, e), KeymapPlan) }
  function WifiFn(h: Host): CallbackFn { Fn(h, e => SetWifi(h, e), WifiPlan) }
  function InterfaceFn(h: Host): CallbackFn { Fn(h, e => SetInterface(h, e), InterfacePlan) }
  function DnsFn(h: Host): CallbackFn { Fn(h, e => SetSecondaryDNS(h, e), DnsPlan) }
  function HostnameFn(h: Host): CallbackFn { Fn(h, e => SetHostname(h, e), HostnamePlan) }
  function PiInterfaceFn(h: Host): CallbackFn { Fn(h, e => SetPiInterface(h, e), PiInterfacePlan) }
  function PiSshFn(h: Host): CallbackFn { CallbackFn(Some(e => EnablePiSsh(h, e)), None) }
  function PiCameraFn(h: Host): CallbackFn { CallbackFn(Some(e => EnablePiCamera(h, e)), None) }

  function DefaultOrder(h: Host): map<string, CallbackFn> {
    map[LOCALE := LocaleFn(h), KEYMAP := KeymapFn(h), WIFI := WifiFn(h), INTERFACE := InterfaceFn(h),
        DNS := DnsFn(h), HOSTNAME := HostnameFn(h)]
  }

  function PiOrder(h: Host): map<string, CallbackFn> {
    map[LOCALE := LocaleFn(h), KEYMAP := KeymapFn(h), WIFI := WifiFn(h), INTERFACE := PiInterfaceFn(h),
        DNS := DnsFn(h), HOSTNAME := HostnameFn(h), PI_SSH := PiSshFn(h), PI_CAMERA := PiCameraFn(h)]
  }

  // ----- footprints -----

  function InterfaceFiles(st: Storage): set<ImageFile> {
    if INTERFACE in st && INTERFACE_NAME in st && st[INTERFACE_NAME].Text?
    then {InterfacesD(Render(st[INTERFACE_NAME].doc))} else {}
  }

  /** `interfaces.d/wlan0` belongs to the Wi-Fi callback when no static interface is stored, and to the
      interface callback otherwise. */
  function WifiFiles(st: Storage): set<ImageFile> {
    {WpaSupplicantConf} + if INTERFACE in st then {} else {InterfacesD("wlan0")}
  }

  function DefaultFootprints(st: Storage): map<string, set<ImageFile>> {
    map[LOCALE := {LocaleConf, Environment}, KEYMAP := {VconsoleConf}, WIFI := WifiFiles(st),
        INTERFACE := InterfaceFiles(st), DNS := {DhclientConf}, HOSTNAME := {EtcHosts, EtcHostname}]
  }

  function PiFootprints(st: Storage): map<string, set<ImageFile>> {
    map[LOCALE := {LocaleConf, Environment}, KEYMAP := {VconsoleConf}, WIFI := WifiFiles(st),
        INTERFACE := {DhcpcdConf}, DNS := {DhclientConf}, HOSTNAME := {EtcHosts, EtcHostname},
        PI_SSH := {}, PI_CAMERA := {}]
  }

  predicate Within(tasks: seq<Task>, fs: set<ImageFile>) {
    forall i :: 0 <= i < |tasks| ==> tasks[i].cmd.file in fs
  }

  lemma {:induction false} WorkTouchesOnly(h: Host, files: Files, tasks: seq<Task>, fs: set<ImageFile>)
    requires Within(tasks, fs)
    ensures forall f :: f !in fs ==> Lookup(Work(h, files, tasks).0, f) == Lookup(files, f)
    decreases |tasks|
  {
    if tasks != [] {
      var next := Execute(h, files, tasks[0].cmd).0;
      assert tasks[0].cmd.file in fs;
      assert forall f :: f !in fs ==> Lookup(next, f) == Lookup(files, f);
      WorkTouchesOnly(h, next, tasks[1..], fs);
    }
  }

  lemma {:induction false} WorkSameWithin(h: Host, a: Files, b: Files, tasks: seq<Task>, fs: set<ImageFile>)
    requires Within(tasks, fs) && AgreeOn(a, b, fs)
    ensures Work(h, a, tasks).1 == Work(h, b, tasks).1
    ensures AgreeOn(Work(h, a, tasks).0, Work(h, b, tasks).0, fs)
    decreases |tasks|
  {
    if tasks != [] {
      assert tasks[0].cmd.file in fs;
      assert Lookup(a, tasks[0].cmd.file) == Lookup(b, tasks[0].cmd.file);
      var a', b' := Execute(h, a, tasks[0].cmd).0, Execute(h, b, tasks[0].cmd).0;
      assert AgreeOn(a', b', fs);
      WorkSameWithin(h, a', b', tasks[1..], fs);
    }
  }

  /** A callback whose commands all go to files of `fs` is local to `fs`. */
  lemma {:induction false} PlanLocal(h: Host, config: Callback, plan: Storage -> Plan, st: Storage, fs: set<ImageFile>)
    requires plan(st).Do? ==> Within(plan(st).tasks, fs)
    ensures Local(Fn(h, config, plan), st, fs)
  {
    var fn := Fn(h, config, plan);
    if plan(st).Do? {
      forall files ensures TouchesOnly(fn, st, fs, files) { WorkTouchesOnly(h, files, plan(st).tasks, fs); }
      forall a, b | AgreeOn(a, b, fs) ensures SameWithin(fn, st, fs, a, b) {
        WorkSameWithin(h, a, b, plan(st).tasks, fs);
      }
    }
  }

  lemma {:induction false} MissingLocal(fn: CallbackFn, st: Storage)
    requires fn.apply.None?
    ensures Local(fn, st, {})
  {
  }

  lemma {:induction false} KeysDiffer()
    ensures LOCALE != KEYMAP && LOCALE != WIFI && LOCALE != INTERFACE && LOCALE != DNS && LOCALE != HOSTNAME
    ensures KEYMAP != WIFI && KEYMAP != INTERFACE && KEYMAP != DNS && KEYMAP != HOSTNAME
    ensures WIFI != INTERFACE && WIFI != DNS && WIFI != HOSTNAME
    ensures INTERFACE != DNS && INTERFACE != HOSTNAME && DNS != HOSTNAME
    ensures PI_SSH !in {LOCALE, KEYMAP, WIFI, INTERFACE, DNS, HOSTNAME, PI_CAMERA}
    ensures PI_CAMERA !in {LOCALE, KEYMAP, WIFI, INTERFACE, DNS, HOSTNAME}
  {
  }

  lemma {:induction false} LocaleLocal(h: Host, st: Storage)
    ensures Local(LocaleFn(h), st, {LocaleConf, Environment})
  {
    PlanLocal(h, e => SetLocale(h, e), LocalePlan, st, {LocaleConf, Environment});
  }

  lemma {:induction false} KeymapLocal(h: Host, st: Storage)
    ensures Local(KeymapFn(h), st, {VconsoleConf})
  {
    PlanLocal(h, e => SetKeyboard(h, e), KeymapPlan, st, {VconsoleConf});
  }

  lemma {:induction false} WifiLocal(h: Host, st: Storage)
    ensures Local(WifiFn(h), st, WifiFiles(st))
  {
    PlanLocal(h, e => SetWifi(h, e), WifiPlan, st, WifiFiles(st));
  }

  lemma {:induction false} InterfaceLocal(h: Host, st: Storage)
    ensures Local(InterfaceFn(h), st, InterfaceFiles(st))
  {
    PlanLocal(h, e => SetInterface(h, e), InterfacePlan, st, InterfaceFiles(st));
  }

  lemma {:induction false} DnsLocal(h: Host, st: Storage)
    ensures Local(DnsFn(h), st, {DhclientConf})
  {
    PlanLocal(h, e => SetSecondaryDNS(h, e), DnsPlan, st, {DhclientConf});
  }

  lemma {:induction false} HostnameLocal(h: Host, st: Storage)
    ensures Local(HostnameFn(h), st, {EtcHosts, EtcHostname})
  {
    PlanLocal(h, e => SetHostname(h, e), HostnamePlan, st, {EtcHosts, EtcHostname});
  }

  lemma {:induction false} PiInterfaceLocal(h: Host, st: Storage)
    ensures Local(PiInterfaceFn(h), st, {DhcpcdConf})
  {
    PlanLocal(h, e => SetPiInterface(h, e), PiInterfacePlan, st, {DhcpcdConf});
  }

  /** The footprints of the callbacks, each file with the one key that may own it. */
  function Owner(st: Storage, f: ImageFile): string {
    match f
    case LocaleConf => LOCALE
    case Environment => LOCALE
    case VconsoleConf => KEYMAP
    case WpaSupplicantConf => WIFI
    case InterfacesD(_) => if INTERFACE in st then INTERFACE else WIFI
    case DhclientConf => DNS
    case DhcpcdConf => INTERFACE
    case EtcHosts => HOSTNAME
    case EtcHostname => HOSTNAME
    case _ => ""
  }

  lemma {:induction false} Owned(order: map<string, CallbackFn>, st: Storage, fps: map<string, set<ImageFile>>)
    requires fps.Keys == order.Keys && forall k :: k in order ==> Local(order[k], st, fps[k])
    requires forall k, f :: k in fps && f in fps[k] ==> Owner(st, f) == k
    ensures Independent(order, st, fps)
  {
    forall k, l | k in order && l in order && k != l ensures fps[k] !! fps[l] {
      forall f | f in fps[k] ensures f !in fps[l] { assert Owner(st, f) == k; }
    }
  }

  lemma {:induction false} DefaultOwned(st: Storage)
    ensures forall k, f :: k in DefaultFootprints(st) && f in DefaultFootprints(st)[k] ==> Owner(st, f) == k
  {
    KeysDiffer();
  }

  lemma {:induction false} DefaultIndependent(h: Host, st: Storage)
    ensures Independent(DefaultOrder(h), st, DefaultFootprints(st))
  {
    KeysDiffer();
    LocaleLocal(h, st);
    KeymapLocal(h, st);
    WifiLocal(h, st);
    InterfaceLocal(h, st);
    DnsLocal(h, st);
    HostnameLocal(h, st);
    DefaultOwned(st);
    Owned(DefaultOrder(h), st, DefaultFootprints(st));
  }

  lemma {:induction false} PiOwned(st: Storage)
    ensures forall k, f :: k in PiFootprints(st) && f in PiFootprints(st)[k] ==> Owner(st, f) == k
  {
    KeysDiffer();
  }

  lemma {:induction false} PiIndependent(h: Host, st: Storage)
    ensures Independent(PiOrder(h), st, PiFootprints(st))
  {
    LocaleLocal(h, st);
    KeymapLocal(h, st);
    WifiLocal(h, st);
    DnsLocal(h, st);
    HostnameLocal(h, st);
    PiInterfaceLocal(h, st);
    MissingLocal(PiSshFn(h), st);
    MissingLocal(PiCameraFn(h), st);
    KeysDiffer();
    PiOwned(st);
    Owned(PiOrder(h), st, PiFootprints(st));
  }
}
