/** The configured image as a reader of its files sees it: every answer of the user comes back. */
module ImageFields {
  import opened Documents
  import opened SortedKeys
  import opened Callbacks
  import opened DefaultCallbacks
  import opened Configurator
  import opened ConfiguredImage
  import opened PiImage
  import opened ConfigReader

  function FieldOf(files: Files, f: ImageFile, key: string): Option<string> {
    match Lookup(files, f)
    case Absent => None
    case Present(text) => Field(text, key)
  }

  function TextOf(c: Content): string {
    if c.Present? then c.text else ""
  }

  /** The shell leaves the quoted texts as they are. */
  ghost predicate PlainShell(h: Host) {
    forall text :: h.expand(text) == text
  }

  predicate LocaleShown(files: Files, l: string) {
    OneLine(l) ==>
      && FieldOf(files, LocaleConf, "LANG=") == Some(l) && FieldOf(files, LocaleConf, "LANGUAGE=") == Some(l)
      && FieldOf(files, Environment, "LC_ALL=") == Some(l)
  }

  predicate KeyboardShown(files: Files, layout: string) {
    OneLine(layout) ==> FieldOf(files, VconsoleConf, "KEYMAP=") == Some(layout)
  }

  predicate WifiShown(files: Files, ssid: string, pass: string) {
    OneLine(ssid) && OneLine(pass) ==>
      && Unquoted(FieldOf(files, WpaSupplicantConf, "ssid=")) == Some(ssid)
      && Unquoted(FieldOf(files, WpaSupplicantConf, "psk=")) == Some(pass)
  }

  predicate DynamicShown(files: Files) {
    && FieldOf(files, InterfacesD("wlan0"), "auto ") == Some("wlan0")
    && FieldOf(files, InterfacesD("wlan0"), "iface ") == Some("wlan0 inet dhcp")
  }

  predicate AddressShown(files: Files, a: StaticAddress) {
    var name := if a.device.Eth0? then "eth0" else "wlan0";
    var f := InterfacesD(name);
    OneLine(a.address) && OneLine(a.netmask) && OneLine(a.gateway) && OneLine(a.dns) ==>
      && FieldOf(files, f, "auto ") == Some(name) && FieldOf(files, f, "iface ") == Some(name + " inet static")
      && FieldOf(files, f, "address ") == Some(a.address) && FieldOf(files, f, "netmask ") == Some(a.netmask)
      && FieldOf(files, f, "gateway ") == Some(a.gateway) && FieldOf(files, f, "dns-nameservers ") == Some(a.dns)
  }

  predicate ServersShown(was: Files, files: Files) {
    Lookup(files, DhclientConf) ==
    Present(TextOf(Lookup(was, DhclientConf)) + "append domain-name-servers 8.8.8.8, 8.8.4.4;" + "\n")
  }

  /** The answers that both kinds of configurators ask for. */
  predicate AnswersShown(was: Files, files: Files, u: User) {
    && (u.locale.Some? ==> LocaleShown(files, u.locale.value))
    && (u.keyboard("").Some? ==> KeyboardShown(files, u.keyboard("").value))
    && (u.wifi.Some? ==> WifiShown(files, u.wifi.value.ssid, u.wifi.value.pass))
    && (u.wifi.Some? && u.address.None? ==> DynamicShown(files))
    && (u.secondaryDns ==> ServersShown(was, files))
  }

  lemma {:induction false} LineField(h: Host, d: Document, files: Files, f: ImageFile, key: string)
    requires PlainShell(h) && Lookup(files, f) == Line(h, d)
    ensures FieldOf(files, f, key) == Field(Render(d) + "\n", key)
  {
  }

  lemma {:induction false} SystemShown(h: Host, was: Files, files: Files)
    requires PlainShell(h)
    requires Lookup(files, LocaleConf) == Expected(h, was, LocaleConf)
    requires Lookup(files, Environment) == Expected(h, was, Environment)
    requires Lookup(files, VconsoleConf) == Expected(h, was, VconsoleConf)
    ensures h.user.locale.Some? ==> LocaleShown(files, h.user.locale.value)
    ensures h.user.keyboard("").Some? ==> KeyboardShown(files, h.user.keyboard("").value)
  {
    var u := h.user;
    if u.locale.Some? && OneLine(u.locale.value) {
      LocaleFields(u.locale.value, "\n");
      EnvironmentFields(u.locale.value, "\n");
    }
    if u.keyboard("").Some? && OneLine(u.keyboard("").value) {
      EnvironmentFields(u.keyboard("").value, "\n");
    }
  }

  lemma {:induction false} WifiIsShown(h: Host, was: Files, files: Files)
    requires PlainShell(h) && h.user.wifi.Some?
    requires Lookup(files, WpaSupplicantConf) == Expected(h, was, WpaSupplicantConf)
    ensures WifiShown(files, h.user.wifi.value.ssid, h.user.wifi.value.pass)
  {
    var w := h.user.wifi.value;
    if OneLine(w.ssid) && OneLine(w.pass) {
      WifiFields(w.ssid, w.pass, "\n");
    }
  }

  lemma {:induction false} DynamicIsShown(h: Host, files: Files)
    requires PlainShell(h) && Lookup(files, InterfacesD("wlan0")) == Line(h, WlanDhcpText)
    ensures DynamicShown(files)
  {
    DynamicInterfaceFields("\n");
    LineField(h, WlanDhcpText, files, InterfacesD("wlan0"), "auto ");
    LineField(h, WlanDhcpText, files, InterfacesD("wlan0"), "iface ");
  }

  lemma {:induction false} AddressIsShown(h: Host, was: Files, files: Files)
    requires PlainShell(h) && h.user.address.Some?
    requires forall name :: Lookup(files, InterfacesD(name)) == Expected(h, was, InterfacesD(name))
    ensures AddressShown(files, h.user.address.value)
  {
    var a := h.user.address.value;
    if OneLine(a.address) && OneLine(a.netmask) && OneLine(a.gateway) && OneLine(a.dns) {
      var text := WrittenAddress(h, was, files);
      assert AddressShown(files, a);
    }
  }

  lemma {:induction false} WrittenAddress(h: Host, was: Files, files: Files) returns (text: string)
    requires PlainShell(h) && h.user.address.Some?
    requires forall name :: Lookup(files, InterfacesD(name)) == Expected(h, was, InterfacesD(name))
    requires var a := h.user.address.value;
             OneLine(a.address) && OneLine(a.netmask) && OneLine(a.gateway) && OneLine(a.dns)
    ensures var a := h.user.address.value;
            var name := if a.device.Eth0? then "eth0" else "wlan0";
            && Lookup(files, InterfacesD(name)) == Present(text)
            && Field(text, "auto ") == Some(name) && Field(text, "iface ") == Some(name + " inet static")
            && Field(text, "address ") == Some(a.address) && Field(text, "netmask ") == Some(a.netmask)
            && Field(text, "gateway ") == Some(a.gateway) && Field(text, "dns-nameservers ") == Some(a.dns)
  {
    var a := h.user.address.value;
    InterfaceFields(a, "\n");
    AddressLine(h, was, files);
    text := Render(InterfaceText(a)) + "\n";
  }

  lemma {:induction false} AddressLine(h: Host, was: Files, files: Files)
    requires PlainShell(h) && h.user.address.Some?
    requires forall name :: Lookup(files, InterfacesD(name)) == Expected(h, was, InterfacesD(name))
    ensures var a := h.user.address.value;
            Lookup(files, InterfacesD(DeviceName(a.device))) == Present(Render(InterfaceText(a)) + "\n")
  {
  }

  lemma {:induction false} ServersAreShown(h: Host, was: Files, files: Files)
    requires PlainShell(h) && h.user.secondaryDns
    requires Lookup(files, DhclientConf) == Expected(h, was, DhclientConf)
    ensures ServersShown(was, files)
  {
    NameServers();
  }

  /** After a configuration in which every command succeeds, a reader of the image finds every answer of the
      user under its key. */
  lemma {:induction false} ImageShowsAnswers(h: Host, files: Files, ks: seq<string>)
    requires AllSucceed(h) && !h.cat.failed && Enumerates(ks, DefaultOrder(h).Keys) && PlainShell(h)
    ensures var asked := Run(Config, DefaultOrder(h), AscendingKeys(DefaultOrder(h).Keys), Env(FRESH, files));
            var written := Run(Apply, DefaultOrder(h), ks, asked.env);
            && written.verdict.Fine? && AnswersShown(files, written.env.files, h.user)
            && (h.user.address.Some? ==> AddressShown(written.env.files, h.user.address.value))
  {
    var asked := Run(Config, DefaultOrder(h), AscendingKeys(DefaultOrder(h).Keys), Env(FRESH, files));
    var written := Run(Apply, DefaultOrder(h), ks, asked.env);
    var final := written.env.files;
    forall f ensures written.verdict.Fine? && Lookup(final, f) == Expected(h, files, f) {
      ImageReflectsAnswers(h, files, ks, f);
    }
    assert Lookup(final, LocaleConf) == Expected(h, files, LocaleConf);
    ExpectedShows(h, files, final);
  }

  lemma {:induction false} ExpectedShows(h: Host, was: Files, files: Files)
    requires PlainShell(h) && forall f :: Lookup(files, f) == Expected(h, was, f)
    ensures AnswersShown(was, files, h.user)
    ensures h.user.address.Some? ==> AddressShown(files, h.user.address.value)
  {
    SystemShown(h, was, files);
    if h.user.wifi.Some? {
      WifiIsShown(h, was, files);
      if h.user.address.None? { DynamicIsShown(h, files); }
    }
    if h.user.address.Some? { AddressIsShown(h, was, files); }
    if h.user.secondaryDns { ServersAreShown(h, was, files); }
  }

  // ----- Raspberry Pi -----

  /** What a Raspberry Pi image shows in addition: a static address at the end of dhcpcd.conf, the camera at the
      end of config.txt, and the file that enables the SSH server. */
  ghost predicate PiAnswersShown(was: Files, files: Files, u: User) {
    && (u.address.Some? ==> exists text :: PiAddressShown(was, files, u.address.value, text))
    && (u.piCamera ==> exists text :: CameraShown(was, files, text))
    && (u.piSsh ==> Lookup(files, BootSsh).Present?)
  }

  predicate AddedTo(was: Files, files: Files, f: ImageFile, text: string) {
    Lookup(files, f) == Present(TextOf(Lookup(was, f)) + text)
  }

  predicate PiAddressShown(was: Files, files: Files, a: StaticAddress, text: string) {
    && AddedTo(was, files, DhcpcdConf, text)
    && (OneLine(a.address) && OneLine(a.mask) && OneLine(a.gateway) && OneLine(a.dns) ==>
          && Field(text, "interface ") == Some(if a.device.Eth0? then "eth0" else "wlan0")
          && Field(text, "static ip_address=") == Some(a.address + "/" + a.mask)
          && Field(text, "static routers=") == Some(a.gateway)
          && Field(text, "static domain_name_servers=") == Some(a.dns))
  }

  predicate CameraShown(was: Files, files: Files, text: string) {
    && AddedTo(was, files, BootConfigTxt, text)
    && Field(text, "start_x=") == Some("1") && Field(text, "gpu_mem=") == Some("128")
  }

  lemma {:induction false} PiImageShowsAnswers(h: Host, files: Files, ks: seq<string>)
    requires AllSucceed(h) && !h.cat.failed && Enumerates(ks, PiOrder(h).Keys) && PlainShell(h)
    ensures var asked := Run(Config, PiOrder(h), AscendingKeys(PiOrder(h).Keys), Env(FRESH, files));
            var written := Run(Apply, PiOrder(h), ks, asked.env);
            && written.verdict.Fine? && AnswersShown(files, written.env.files, h.user)
            && PiAnswersShown(files, written.env.files, h.user)
  {
    var asked := Run(Config, PiOrder(h), AscendingKeys(PiOrder(h).Keys), Env(FRESH, files));
    var written := Run(Apply, PiOrder(h), ks, asked.env);
    var final := written.env.files;
    forall f ensures written.verdict.Fine? && Lookup(final, f) == PiExpected(h, files, f) {
      PiImageReflectsAnswers(h, files, ks, f);
    }
    assert Lookup(final, LocaleConf) == PiExpected(h, files, LocaleConf);
    PiExpectedShows(h, files, final);
    if h.user.address.Some? { PiAddressExpected(h, files, h.user.address.value); }
    if h.user.piCamera { CameraExpected(h, files); }
    if h.user.piSsh { SshExpected(h, files); }
    PiExtrasShown(h, files, final);
  }

  lemma {:induction false} PiExpectedShows(h: Host, was: Files, files: Files)
    requires PlainShell(h) && forall f :: Lookup(files, f) == PiExpected(h, was, f)
    ensures AnswersShown(was, files, h.user)
  {
    SystemShown(h, was, files);
    if h.user.wifi.Some? {
      WifiIsShown(h, was, files);
      if h.user.address.None? { DynamicIsShown(h, files); }
    }
    if h.user.secondaryDns { ServersAreShown(h, was, files); }
  }

  lemma {:induction false} PiExtrasShown(h: Host, was: Files, files: Files)
    requires PlainShell(h)
    requires h.user.address.Some? ==>
               Lookup(files, DhcpcdConf) == Appended(h, Lookup(was, DhcpcdConf), PiInterfaceText(h.user.address.value))
    requires h.user.piCamera ==>
               Lookup(files, BootConfigTxt) == Appended(h, Lookup(was, BootConfigTxt), CameraText)
    requires h.user.piSsh ==> Lookup(files, BootSsh).Present?
    ensures PiAnswersShown(was, files, h.user)
  {
    var u := h.user;
    if u.address.Some? {
      var text := PiAddressIsShown(h, was, files);
    }
    if u.piCamera {
      var text := CameraIsShown(h, was, files);
    }
  }

  lemma {:induction false} PiAddressExpected(h: Host, was: Files, a: StaticAddress)
    requires h.user.address == Some(a)
    ensures PiExpected(h, was, DhcpcdConf) == Appended(h, Lookup(was, DhcpcdConf), PiInterfaceText(a))
  {
  }

  lemma {:induction false} CameraExpected(h: Host, was: Files)
    requires h.user.piCamera
    ensures PiExpected(h, was, BootConfigTxt) == Appended(h, Lookup(was, BootConfigTxt), CameraText)
  {
  }

  lemma {:induction false} SshExpected(h: Host, was: Files)
    requires h.user.piSsh
    ensures PiExpected(h, was, BootSsh).Present?
  {
  }

  lemma {:induction false} PiAddressIsShown(h: Host, was: Files, files: Files) returns (text: string)
    requires PlainShell(h) && h.user.address.Some?
    requires Lookup(files, DhcpcdConf) == Appended(h, Lookup(was, DhcpcdConf), PiInterfaceText(h.user.address.value))
    ensures PiAddressShown(was, files, h.user.address.value, text)
  {
    var a := h.user.address.value;
    Added(h, was, files, DhcpcdConf, PiInterfaceText(a));
    text := Render(PiInterfaceText(a)) + "\n";
    if OneLine(a.address) && OneLine(a.mask) && OneLine(a.gateway) && OneLine(a.dns) {
      PiInterfaceFields(a, "\n");
    }
  }

  lemma {:induction false} CameraIsShown(h: Host, was: Files, files: Files) returns (text: string)
    requires PlainShell(h) && Lookup(files, BootConfigTxt) == Appended(h, Lookup(was, BootConfigTxt), CameraText)
    ensures CameraShown(was, files, text)
  {
    Added(h, was, files, BootConfigTxt, CameraText);
    text := Render(CameraText) + "\n";
    CameraFields("\n");
  }

  lemma {:induction false} Added(h: Host, was: Files, files: Files, f: ImageFile, d: Document)
    requires PlainShell(h) && Lookup(files, f) == Appended(h, Lookup(was, f), d)
    ensures AddedTo(was, files, f, Render(d) + "\n")
  {
  }
}
