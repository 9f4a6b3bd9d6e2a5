/** When `Write` of `device/config/configurator.go` fails: the commands whose failure counts. */
module WriteFailures {
  import opened Text
  import opened Documents
  import opened SortedKeys
  import opened Callbacks
  import opened DefaultCallbacks
  import opened Configurator
  import opened HostName

  /** Does the command succeed on the image as it is? */
  predicate Works(h: Host, files: Files, cmd: Command) {
    !h.reply(cmd, Lookup(files, cmd.file)).failed
  }

  predicate OnDifferentFiles(tasks: seq<Task>) {
    forall i, j :: 0 <= i < j < |tasks| ==> tasks[i].cmd.file != tasks[j].cmd.file
  }

  /** Commands on different files succeed together exactly when each that must succeed does on its own; the
      error is what the first of the others printed. */
  lemma {:induction false} WorkVerdict(h: Host, files: Files, tasks: seq<Task>)
    requires OnDifferentFiles(tasks) && forall i :: 0 <= i < |tasks| ==> !tasks[i].policy.WatchStderr?
    ensures Work(h, files, tasks).1.Fine? <==>
            forall i :: 0 <= i < |tasks| && tasks[i].policy.MustSucceed? ==> Works(h, files, tasks[i].cmd)
    ensures Work(h, files, tasks).1.Stop? ==>
              exists i :: 0 <= i < |tasks| && tasks[i].policy.MustSucceed? &&
                          FailedWith(h, files, tasks[i].cmd, Work(h, files, tasks).1.error)
    decreases |tasks|
  {
    if tasks != [] {
      var (next, r) := Execute(h, files, tasks[0].cmd);
      var rest := tasks[1..];
      forall i, j | 0 <= i < j < |rest| ensures rest[i].cmd.file != rest[j].cmd.file {
        assert rest[i] == tasks[i + 1] && rest[j] == tasks[j + 1];
      }
      WorkVerdict(h, next, rest);
      forall i | 0 <= i < |rest|
        ensures Lookup(next, rest[i].cmd.file) == Lookup(files, rest[i].cmd.file)
      {
        assert tasks[i + 1].cmd.file != tasks[0].cmd.file;
      }
      assert forall i :: 0 <= i < |rest| ==> tasks[i + 1] == rest[i];
      assert forall i :: 0 < i < |tasks| ==> tasks[i] == rest[i - 1];
    }
  }

  predicate FailedWith(h: Host, files: Files, cmd: Command, error: Error) {
    !Works(h, files, cmd) && error == Failed(h.reply(cmd, Lookup(files, cmd.file)).eut)
  }

  lemma {:induction false} PlanVerdict(h: Host, config: Callback, plan: Storage -> Plan, st: Storage, files: Files)
    requires plan(st).Do? ==> OnDifferentFiles(plan(st).tasks) &&
                              forall i :: 0 <= i < |plan(st).tasks| ==> !plan(st).tasks[i].policy.WatchStderr?
    ensures Effect(Fn(h, config, plan), st, files).verdict.Fine? <==>
            && plan(st).Do?
            && forall i :: 0 <= i < |plan(st).tasks| && plan(st).tasks[i].policy.MustSucceed? ==>
                 Works(h, files, plan(st).tasks[i].cmd)
  {
    if plan(st).Do? {
      WorkVerdict(h, files, plan(st).tasks);
    }
  }

  predicate LocaleSaved(h: Host, st: Storage, files: Files) {
    LOCALE in st ==>
      && HasSsh(st) && Works(h, files, Overwrite(LocaleConf, LocaleConfText(Render(Stored(st, LOCALE)))))
      && Works(h, files, Overwrite(Environment, EnvironmentText(Render(Stored(st, LOCALE)))))
  }

  predicate KeymapSaved(h: Host, st: Storage, files: Files) {
    KEYMAP in st ==> HasSsh(st) && Works(h, files, Overwrite(VconsoleConf, Stored(st, KEYMAP)))
  }

  /** The dynamic interface that goes with the wireless network may fail. */
  predicate WifiSaved(h: Host, st: Storage, files: Files) {
    WIFI_NAME in st ==>
      && HasSsh(st)
      && Works(h, files, Overwrite(WpaSupplicantConf,
                                   WpaText(Render(Stored(st, WIFI_NAME)), Render(Stored(st, WIFI_PASS)))))
  }

  predicate InterfaceSaved(h: Host, st: Storage, files: Files) {
    INTERFACE in st && INTERFACE_NAME in st ==>
      && HasSsh(st) && st[INTERFACE_NAME].Text?
      && Works(h, files, Overwrite(InterfacesD(Render(st[INTERFACE_NAME].doc)), Stored(st, INTERFACE)))
  }

  predicate ServersSaved(h: Host, st: Storage, files: Files) {
    DNS in st ==> HasSsh(st) && Works(h, files, AppendTo(DhclientConf, NameServersText))
  }

  /** The second file is only tried when the first substitution says nothing on its error channel. */
  predicate HostnameSaved(h: Host, st: Storage, files: Files) {
    OLD_HOSTNAME in st && NEW_HOSTNAME in st ==>
      && HasSsh(st) && Works(h, files, Rename(st, EtcHosts))
      && (Blank(ReplyTo(h, st, files, EtcHosts).eut) ==> Works(h, files, Rename(st, EtcHostname)))
  }

  lemma {:induction false} LocaleVerdict(h: Host, st: Storage, files: Files)
    ensures Effect(LocaleFn(h), st, files).verdict.Fine? <==> LocaleSaved(h, st, files)
  {
    PlanVerdict(h, e => SetLocale(h, e), LocalePlan, st, files);
    if LOCALE in st && HasSsh(st) {
      var l := Render(Stored(st, LOCALE));
      var first, second := Task(Overwrite(LocaleConf, LocaleConfText(l)), MustSucceed),
                           Task(Overwrite(Environment, EnvironmentText(l)), MustSucceed);
      assert LocalePlan(st) == Do([first, second]);
      assert [first, second][0] == first && [first, second][1] == second;
    }
  }

  lemma {:induction false} KeymapVerdict(h: Host, st: Storage, files: Files)
    ensures Effect(KeymapFn(h), st, files).verdict.Fine? <==> KeymapSaved(h, st, files)
  {
    PlanVerdict(h, e => SetKeyboard(h, e), KeymapPlan, st, files);
  }

  lemma {:induction false} WifiVerdict(h: Host, st: Storage, files: Files)
    ensures Effect(WifiFn(h), st, files).verdict.Fine? <==> WifiSaved(h, st, files)
  {
    PlanVerdict(h, e => SetWifi(h, e), WifiPlan, st, files);
  }

  lemma {:induction false} InterfaceVerdict(h: Host, st: Storage, files: Files)
    ensures Effect(InterfaceFn(h), st, files).verdict.Fine? <==> InterfaceSaved(h, st, files)
  {
    PlanVerdict(h, e => SetInterface(h, e), InterfacePlan, st, files);
  }

  lemma {:induction false} ServersVerdict(h: Host, st: Storage, files: Files)
    ensures Effect(DnsFn(h), st, files).verdict.Fine? <==> ServersSaved(h, st, files)
  {
    PlanVerdict(h, e => SetSecondaryDNS(h, e), DnsPlan, st, files);
  }

  lemma {:induction false} HostnameVerdict(h: Host, st: Storage, files: Files)
    ensures Effect(HostnameFn(h), st, files).verdict.Fine? <==> HostnameSaved(h, st, files)
  {
    if Renames(st) {
      SaveHostnameLeaves(h, st, files);
    } else {
      HostnameEffect(h, st, files);
    }
  }

  /** Write succeeds exactly when, on the image as it was, every command that must succeed does: those of the
      answers that are stored, over a stored connection. */
  lemma {:induction false} WriteSucceedsIff(h: Host, st: Storage, files: Files, ks: seq<string>)
    requires Enumerates(ks, DefaultOrder(h).Keys)
    ensures Run(Apply, DefaultOrder(h), ks, Env(st, files)).verdict.Fine? <==>
            && LocaleSaved(h, st, files) && KeymapSaved(h, st, files) && WifiSaved(h, st, files)
            && InterfaceSaved(h, st, files) && ServersSaved(h, st, files) && HostnameSaved(h, st, files)
  {
    DefaultIndependent(h, st);
    RunReachesTarget(DefaultOrder(h), DefaultFootprints(st), ks, Env(st, files));
    AllFineIff(h, st, files, ks);
    LocaleVerdict(h, st, files);
    KeymapVerdict(h, st, files);
    WifiVerdict(h, st, files);
    InterfaceVerdict(h, st, files);
    ServersVerdict(h, st, files);
    HostnameVerdict(h, st, files);
  }

  predicate Fares(fn: CallbackFn, st: Storage, files: Files) {
    Effect(fn, st, files).verdict.Fine?
  }

  lemma {:induction false} AllFineIff(h: Host, st: Storage, files: Files, ks: seq<string>)
    requires Enumerates(ks, DefaultOrder(h).Keys)
    ensures AllFine(DefaultOrder(h), ks, Env(st, files)) <==>
            && Fares(LocaleFn(h), st, files) && Fares(KeymapFn(h), st, files) && Fares(WifiFn(h), st, files)
            && Fares(InterfaceFn(h), st, files) && Fares(DnsFn(h), st, files) && Fares(HostnameFn(h), st, files)
  {
    DefaultCallbacksAre(h);
    var order := DefaultOrder(h);
    AllFineOver(order, st, files, ks);
  }

  lemma {:induction false} AllFineOver(order: map<string, CallbackFn>, st: Storage, files: Files, ks: seq<string>)
    requires Enumerates(ks, order.Keys)
    ensures AllFine(order, ks, Env(st, files)) <==> forall k :: k in order.Keys ==> Fares(order[k], st, files)
  {
  }

  lemma {:induction false} DefaultCallbacksAre(h: Host)
    ensures var order := DefaultOrder(h);
            && order.Keys == {LOCALE, KEYMAP, WIFI, INTERFACE, DNS, HOSTNAME}
            && order[LOCALE] == LocaleFn(h) && order[KEYMAP] == KeymapFn(h) && order[WIFI] == WifiFn(h)
            && order[INTERFACE] == InterfaceFn(h) && order[DNS] == DnsFn(h) && order[HOSTNAME] == HostnameFn(h)
  {
    KeysDiffer();
  }

  /** A Raspberry Pi has its static interface in another file. */
  predicate PiInterfaceSaved(h: Host, st: Storage, files: Files) {
    INTERFACE in st ==> HasSsh(st) && Works(h, files, AppendTo(DhcpcdConf, Stored(st, INTERFACE)))
  }

  lemma {:induction false} PiInterfaceVerdict(h: Host, st: Storage, files: Files)
    ensures Fares(PiInterfaceFn(h), st, files) <==> PiInterfaceSaved(h, st, files)
  {
    PlanVerdict(h, e => SetPiInterface(h, e), PiInterfacePlan, st, files);
  }

  lemma {:induction false} PiWriteSucceedsIff(h: Host, st: Storage, files: Files, ks: seq<string>)
    requires Enumerates(ks, PiOrder(h).Keys)
    ensures Run(Apply, PiOrder(h), ks, Env(st, files)).verdict.Fine? <==>
            && LocaleSaved(h, st, files) && KeymapSaved(h, st, files) && WifiSaved(h, st, files)
            && PiInterfaceSaved(h, st, files) && ServersSaved(h, st, files) && HostnameSaved(h, st, files)
  {
    PiIndependent(h, st);
    RunReachesTarget(PiOrder(h), PiFootprints(st), ks, Env(st, files));
    PiAllFineIff(h, st, files, ks);
    LocaleVerdict(h, st, files);
    KeymapVerdict(h, st, files);
    WifiVerdict(h, st, files);
    PiInterfaceVerdict(h, st, files);
    ServersVerdict(h, st, files);
    HostnameVerdict(h, st, files);
  }

  lemma {:induction false} PiAllFineIff(h: Host, st: Storage, files: Files, ks: seq<string>)
    requires Enumerates(ks, PiOrder(h).Keys)
    ensures AllFine(PiOrder(h), ks, Env(st, files)) <==>
            && Fares(LocaleFn(h), st, files) && Fares(KeymapFn(h), st, files) && Fares(WifiFn(h), st, files)
            && Fares(PiInterfaceFn(h), st, files) && Fares(DnsFn(h), st, files) && Fares(HostnameFn(h), st, files)
  {
    PiCallbacksAre(h);
    AllFineOver(PiOrder(h), st, files, ks);
    NothingToApply(h, st, files);
  }

  lemma {:induction false} NothingToApply(h: Host, st: Storage, files: Files)
    ensures Fares(PiSshFn(h), st, files) && Fares(PiCameraFn(h), st, files)
  {
  }

  lemma {:induction false} PiCallbacksAre(h: Host)
    ensures var order := PiOrder(h);
            && order.Keys == {LOCALE, KEYMAP, WIFI, INTERFACE, DNS, HOSTNAME, PI_SSH, PI_CAMERA}
            && order[LOCALE] == LocaleFn(h) && order[KEYMAP] == KeymapFn(h) && order[WIFI] == WifiFn(h)
            && order[INTERFACE] == PiInterfaceFn(h) && order[DNS] == DnsFn(h) && order[HOSTNAME] == HostnameFn(h)
            && order[PI_SSH] == PiSshFn(h) && order[PI_CAMERA] == PiCameraFn(h)
  {
    KeysDiffer();
  }
}
