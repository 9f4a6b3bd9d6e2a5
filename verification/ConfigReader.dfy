/** Reading configuration texts back: a field is a line that begins with its key, blanks aside. */
module ConfigReader {
  import opened Documents
  import opened Callbacks

  predicate IsBlank(c: char) {
    c == ' ' || c == '\t'
  }

  function FirstLine(text: string): string {
    if text == "" || text[0] == '\n' then "" else [text[0]] + FirstLine(text[1..])
  }

  function AfterLine(text: string): (rest: string)
    ensures text != "" ==> |rest| < |text|
  {
    if text == "" then "" else if text[0] == '\n' then text[1..] else AfterLine(text[1..])
  }

  /** The value of the first line with that key. */
  function Field(text: string, key: string): Option<string>
    decreases |text|
  {
    if text == "" then None
    else if IsBlank(text[0]) then Field(text[1..], key)
    else if key <= text then Some(FirstLine(text[|key|..]))
    else Field(AfterLine(text), key)
  }

  function Trim(line: string): string {
    if line != "" && IsBlank(line[0]) then Trim(line[1..]) else line
  }

  predicate IsKey(key: string) {
    key != "" && !IsBlank(key[0]) && '\n' !in key
  }

  lemma {:induction false} LineEnds(line: string, rest: string)
    requires '\n' !in line
    ensures FirstLine(line + "\n" + rest) == line && AfterLine(line + "\n" + rest) == rest
    decreases |line|
  {
    var text := line + "\n" + rest;
    if line == "" {
      assert text == "\n" + rest && text[1..] == rest;
    } else {
      LineEnds(line[1..], rest);
      assert text[0] == line[0] && text[1..] == line[1..] + "\n" + rest;
      assert line[0] in line && forall c :: c in line[1..] ==> c in line;
    }
  }

  lemma {:induction false} KeyInLine(line: string, rest: string, key: string)
    requires '\n' !in line && IsKey(key) && key <= line + "\n" + rest
    ensures key <= line
  {
    var all := line + "\n" + rest;
    assert all[|line|] == '\n';
    assert forall i :: 0 <= i < |key| ==> all[i] == key[i] && key[i] in key;
  }

  lemma {:induction false} FieldPasses(line: string, rest: string, key: string)
    requires '\n' !in line && IsKey(key) && !(key <= Trim(line))
    ensures Field(line + "\n" + rest, key) == Field(rest, key)
    decreases |line|
  {
    var text := line + "\n" + rest;
    if line != "" && IsBlank(line[0]) {
      FieldPasses(line[1..], rest, key);
      assert text[1..] == line[1..] + "\n" + rest;
    } else {
      assert text[0] == if line == "" then '\n' else line[0];
      if key <= text { KeyInLine(line, rest, key); }
      LineEnds(line, rest);
    }
  }

  lemma {:induction false} FieldHits(line: string, rest: string, key: string, value: string)
    requires '\n' !in line && IsKey(key) && Trim(line) == key + value
    ensures Field(line + "\n" + rest, key) == Some(value)
    decreases |line|
  {
    var text := line + "\n" + rest;
    if line != "" && IsBlank(line[0]) {
      FieldHits(line[1..], rest, key, value);
      assert text[1..] == line[1..] + "\n" + rest;
    } else {
      assert text[0] == key[0] && key <= text;
      assert text[|key|..] == value + "\n" + rest;
      assert forall c :: c in value ==> c in line;
      LineEnds(value, rest);
    }
  }

  predicate OneLine(s: string) {
    '\n' !in s
  }

  predicate Blanks(s: string) {
    forall c :: c in s ==> IsBlank(c)
  }

  /** A line as it is written: blanks, then nothing or a key that does not begin with one. */
  predicate Proper(l: TextLine) {
    && Blanks(l.indent) && OneLine(l.key) && OneLine(l.value)
    && if l.key == "" then l.value == "" else !IsBlank(l.key[0])
  }

  lemma {:induction false} TrimWritten(l: TextLine)
    requires Proper(l)
    ensures Trim(Written(l)) == l.key + l.value && OneLine(Written(l))
    decreases |l.indent|
  {
    if l.indent == "" {
      assert Written(l) == l.key + l.value;
    } else {
      var l' := l.(indent := l.indent[1..]);
      TrimWritten(l');
      assert Written(l)[1..] == Written(l');
      assert l.indent[0] in l.indent;
      assert forall c :: c in Written(l) ==> c == l.indent[0] || c in Written(l');
    }
  }

  /** The two keys differ at some place. */
  predicate Apart(key: string, other: string) {
    other == "" || exists k :: 0 <= k < |key| && k < |other| && key[k] != other[k]
  }

  /** Line `i` gives the value of its key if the lines before it have other keys. */
  lemma {:induction false} FieldAt(lines: seq<TextLine>, rest: string, i: nat)
    requires i < |lines| && lines[i].key != ""
    requires forall j :: 0 <= j <= i ==> Proper(lines[j])
    requires forall j :: 0 <= j < i ==> Apart(lines[i].key, lines[j].key)
    ensures Field(Unlines(lines) + rest, lines[i].key) == Some(lines[i].value)
    decreases i
  {
    var tail, key := Unlines(lines[1..]) + rest, lines[i].key;
    assert Unlines(lines) + rest == Written(lines[0]) + "\n" + tail;
    TrimWritten(lines[0]);
    if i == 0 {
      FieldHits(Written(lines[0]), tail, key, lines[0].value);
    } else {
      assert !(key <= lines[0].key + lines[0].value);
      FieldPasses(Written(lines[0]), tail, key);
      FieldAt(lines[1..], rest, i - 1);
    }
  }

  /** A quoted value without its escaped quotes. */
  function Unquoted(value: Option<string>): Option<string> {
    if value.Some? && |value.value| >= 4 && value.value[..2] == "\\\"" == value.value[|value.value| - 2..]
    then Some(value.value[2..|value.value| - 2]) else None
  }

  lemma {:induction false} NoRest(d: Document, rest: string)
    requires !d.Plain? && Rest(d) == ""
    ensures Render(d) + rest == Unlines(Lines(d)) + rest
  {
  }

  /** What the reader finds in the texts, whatever follows them. */
  lemma {:induction false} LocaleFields(l: string, rest: string)
    requires OneLine(l)
    ensures Field(Render(LocaleConfText(l)) + rest, "LANG=") == Some(l)
    ensures Field(Render(LocaleConfText(l)) + rest, "LANGUAGE=") == Some(l)
  {
    var lines := Lines(LocaleConfText(l));
    assert "LANG="[4] != "LANGUAGE="[4];
    FieldAt(lines, rest, 0);
    FieldAt(lines, rest, 1);
    NoRest(LocaleConfText(l), rest);
  }

  lemma {:induction false} EnvironmentFields(l: string, rest: string)
    requires OneLine(l)
    ensures Field(Render(EnvironmentText(l)) + rest, "LC_ALL=") == Some(l)
    ensures Field(Render(KeymapText(l)) + rest, "KEYMAP=") == Some(l)
  {
    FieldAt(Lines(EnvironmentText(l)), rest, 0);
    NoRest(EnvironmentText(l), rest);
    FieldAt(Lines(KeymapText(l)), rest, 0);
    NoRest(KeymapText(l), rest);
  }

  lemma {:induction false} Controls()
    ensures Proper(TextLine("", "ctrl_interface=", "DIR=/var/run/" + "wpa_supplicant" + " GROUP=netdev"))
  {
    assert OneLine("DIR=/var/run/");
    assert OneLine("wpa_supplicant");
    assert OneLine(" GROUP=netdev");
  }

  /** Keys that differ in their first or second letter. */
  lemma {:induction false} EarlyApart(key: string, other: string)
    requires |key| > 1 && |other| > 1 && (key[0] != other[0] || key[1] != other[1])
    ensures Apart(key, other)
  {
  }

  lemma {:induction false} FixedWifiLines()
    ensures Proper(TextLine("    ", "country=", "us"))
    ensures Proper(TextLine("\t", "update_config=", "1"))
    ensures Proper(TextLine("", "", "")) && Proper(TextLine("\t", "network=", "{"))
  {
  }

  lemma {:induction false} AnsweredWifiLines(ssid: string, pass: string)
    requires OneLine(ssid) && OneLine(pass)
    ensures Proper(TextLine("\t\t", "ssid=", "\\\"" + ssid + "\\\""))
    ensures Proper(TextLine("\t\t", "psk=", "\\\"" + pass + "\\\""))
  {
  }

  lemma {:induction false} WifiLines(ssid: string, pass: string)
    ensures var lines := Lines(WpaText(ssid, pass));
            && |lines| == 9
            && lines[0] == TextLine("", "ctrl_interface=", "DIR=/var/run/" + "wpa_supplicant" + " GROUP=netdev")
            && lines[1] == TextLine("    ", "country=", "us") && lines[2] == TextLine("\t", "update_config=", "1")
            && lines[3] == TextLine("", "", "") && lines[4] == TextLine("\t", "network=", "{")
            && lines[5] == TextLine("\t\t", "ssid=", "\\\"" + ssid + "\\\"")
            && lines[6] == TextLine("\t\t", "psk=", "\\\"" + pass + "\\\"")
  {
  }

  lemma {:induction false} WifiLinesProper(lines: seq<TextLine>, ssid: string, pass: string)
    requires OneLine(ssid) && OneLine(pass) && lines == Lines(WpaText(ssid, pass))
    ensures |lines| > 6 && forall j :: 0 <= j < 7 ==> Proper(lines[j])
    ensures lines[5] == TextLine("\t\t", "ssid=", "\\\"" + ssid + "\\\"")
    ensures lines[6] == TextLine("\t\t", "psk=", "\\\"" + pass + "\\\"")
    ensures forall j :: 0 <= j < 5 ==> BeginsApart(lines[j].key, {'s', 'p'})
  {
    WifiLines(ssid, pass);
    Controls();
    FixedWifiLines();
    AnsweredWifiLines(ssid, pass);
  }

  /** Nothing, or a key that begins with another letter. */
  predicate BeginsApart(key: string, letters: set<char>) {
    key == "" || (|key| > 1 && key[0] !in letters)
  }

  lemma {:induction false} WifiFields(ssid: string, pass: string, rest: string)
    requires OneLine(ssid) && OneLine(pass)
    ensures Unquoted(Field(Render(WpaText(ssid, pass)) + rest, "ssid=")) == Some(ssid)
    ensures Unquoted(Field(Render(WpaText(ssid, pass)) + rest, "psk=")) == Some(pass)
  {
    var d := WpaText(ssid, pass);
    WifiLinesProper(Lines(d), ssid, pass);
    RenderThen(d, rest);
    WifiFieldsOf(Lines(d), Rest(d) + rest, ssid, pass);
  }

  lemma {:induction false} WifiFieldsOf(lines: seq<TextLine>, rest: string, ssid: string, pass: string)
    requires |lines| > 6 && forall j :: 0 <= j < 7 ==> Proper(lines[j])
    requires lines[5] == TextLine("\t\t", "ssid=", "\\\"" + ssid + "\\\"")
    requires lines[6] == TextLine("\t\t", "psk=", "\\\"" + pass + "\\\"")
    requires forall j :: 0 <= j < 5 ==> BeginsApart(lines[j].key, {'s', 'p'})
    ensures Unquoted(Field(Unlines(lines) + rest, "ssid=")) == Some(ssid)
    ensures Unquoted(Field(Unlines(lines) + rest, "psk=")) == Some(pass)
  {
    EarlyApart("psk=", "ssid=");
    FieldAt(lines, rest, 5);
    FieldAt(lines, rest, 6);
  }

  lemma {:induction false} RenderThen(d: Document, rest: string)
    requires !d.Plain?
    ensures Render(d) + rest == Unlines(Lines(d)) + (Rest(d) + rest)
  {
  }

  lemma {:induction false} DeviceNameOneLine(d: Device)
    ensures OneLine(DeviceName(d)) && OneLine(DeviceName(d) + " inet static")
  {
    assert OneLine(" inet static");
  }

  lemma {:induction false} InterfaceLines(a: StaticAddress)
    ensures var lines, name := Lines(InterfaceText(a)), DeviceName(a.device);
            && |lines| >= 6
            && lines[0] == TextLine("", "auto ", name) && lines[1] == TextLine("", "iface ", name + " inet static")
            && lines[2] == TextLine("", "address ", a.address) && lines[3] == TextLine("", "netmask ", a.netmask)
            && lines[4] == TextLine("", "gateway ", a.gateway) && lines[5] == TextLine("", "dns-nameservers ", a.dns)
  {
  }

  lemma {:induction false} ProperNames(d: Device)
    ensures Proper(TextLine("", "auto ", DeviceName(d)))
    ensures Proper(TextLine("", "iface ", DeviceName(d) + " inet static"))
  {
    DeviceNameOneLine(d);
  }

  lemma {:induction false} ProperAddresses(v: string)
    requires OneLine(v)
    ensures Proper(TextLine("", "address ", v)) && Proper(TextLine("", "netmask ", v))
    ensures Proper(TextLine("", "gateway ", v))
  {
  }

  lemma {:induction false} ProperServers(v: string)
    requires OneLine(v)
    ensures Proper(TextLine("", "dns-nameservers ", v))
  {
  }

  /** Six keys that are pairwise apart. */
  lemma {:induction false} InterfaceFieldsOf(lines: seq<TextLine>, rest: string)
    requires |lines| >= 6 && forall j :: 0 <= j < 6 ==> Proper(lines[j]) && |lines[j].key| > 1
    requires forall i, j :: 0 <= j < i < 6 ==> lines[i].key[0] != lines[j].key[0] || lines[i].key[1] != lines[j].key[1]
    ensures forall i :: 0 <= i < 6 ==> Field(Unlines(lines) + rest, lines[i].key) == Some(lines[i].value)
  {
    forall i, j | 0 <= j < i < 6 ensures Apart(lines[i].key, lines[j].key) { EarlyApart(lines[i].key, lines[j].key); }
    forall i | 0 <= i < 6 ensures Field(Unlines(lines) + rest, lines[i].key) == Some(lines[i].value) {
      FieldAt(lines, rest, i);
    }
  }

  lemma {:induction false} InterfaceFields(a: StaticAddress, rest: string)
    requires OneLine(a.address) && OneLine(a.netmask) && OneLine(a.gateway) && OneLine(a.dns)
    ensures var text, name := Render(InterfaceText(a)) + rest, DeviceName(a.device);
            && name == (if a.device.Eth0? then "eth0" else "wlan0")
            && Field(text, "auto ") == Some(name) && Field(text, "iface ") == Some(name + " inet static")
            && Field(text, "address ") == Some(a.address) && Field(text, "netmask ") == Some(a.netmask)
            && Field(text, "gateway ") == Some(a.gateway) && Field(text, "dns-nameservers ") == Some(a.dns)
  {
    var d := InterfaceText(a);
    InterfaceLines(a);
    ProperNames(a.device);
    ProperAddresses(a.address);
    ProperAddresses(a.netmask);
    ProperAddresses(a.gateway);
    ProperServers(a.dns);
    RenderThen(d, rest);
    InterfaceFieldsOf(Lines(d), Rest(d) + rest);
  }

  lemma {:induction false} PiLines(a: StaticAddress)
    ensures var lines := Lines(PiInterfaceText(a));
            && |lines| == 7 && lines[0] == lines[1] == TextLine("", "", "")
            && lines[2] == TextLine("", "interface ", DeviceName(a.device)) && lines[3] == TextLine("\t", "noipv6rs", "")
            && lines[4] == TextLine("\t", "static ip_address=", a.address + "/" + a.mask)
            && lines[5] == TextLine("\t", "static routers=", a.gateway)
            && lines[6] == TextLine("\t", "static domain_name_servers=", a.dns)
  {
  }

  lemma {:induction false} ProperPiNames(d: Device)
    ensures Proper(TextLine("", "", "")) && Proper(TextLine("", "interface ", DeviceName(d)))
    ensures Proper(TextLine("\t", "noipv6rs", ""))
  {
    DeviceNameOneLine(d);
  }

  lemma {:induction false} ProperPiAddress(address: string, mask: string)
    requires OneLine(address) && OneLine(mask)
    ensures Proper(TextLine("\t", "static ip_address=", address + "/" + mask))
  {
  }

  lemma {:induction false} ProperPiRouters(v: string)
    requires OneLine(v)
    ensures Proper(TextLine("\t", "static routers=", v))
  {
  }

  lemma {:induction false} ProperPiServers(v: string)
    requires OneLine(v)
    ensures Proper(TextLine("\t", "static domain_name_servers=", v))
  {
    assert OneLine("static domain_");
  }

  predicate BothStatic(key: string, other: string) {
    |key| > 7 && |other| > 7 && key[7] != other[7]
  }

  lemma {:induction false} StaticKeys()
    ensures BothStatic("static routers=", "static ip_address=")
    ensures BothStatic("static domain_name_servers=", "static ip_address=")
    ensures BothStatic("static domain_name_servers=", "static routers=")
  {
  }

  lemma {:induction false} PiFieldsOf(lines: seq<TextLine>, rest: string)
    requires |lines| == 7 && forall j :: 0 <= j < 7 ==> Proper(lines[j])
    requires lines[0].key == lines[1].key == ""
    requires lines[2].key == "interface " && lines[3].key == "noipv6rs"
    requires forall j :: 4 <= j < 7 ==> |lines[j].key| > 7 && lines[j].key[0] == 's'
    requires forall i, j :: 4 <= j < i < 7 ==> BothStatic(lines[i].key, lines[j].key)
    ensures forall i :: 2 <= i < 7 && i != 3 ==> Field(Unlines(lines) + rest, lines[i].key) == Some(lines[i].value)
  {
    forall i, j | 4 <= i < 7 && 0 <= j < i ensures Apart(lines[i].key, lines[j].key) {
      if 2 <= j < 4 { EarlyApart(lines[i].key, lines[j].key); }
    }
    forall i | 2 <= i < 7 && i != 3 ensures Field(Unlines(lines) + rest, lines[i].key) == Some(lines[i].value) {
      FieldAt(lines, rest, i);
    }
  }

  lemma {:induction false} PiInterfaceFields(a: StaticAddress, rest: string)
    requires OneLine(a.address) && OneLine(a.mask) && OneLine(a.gateway) && OneLine(a.dns)
    ensures var text := Render(PiInterfaceText(a)) + rest;
            && Field(text, "interface ") == Some(DeviceName(a.device))
            && Field(text, "static ip_address=") == Some(a.address + "/" + a.mask)
            && Field(text, "static routers=") == Some(a.gateway)
            && Field(text, "static domain_name_servers=") == Some(a.dns)
  {
    var d := PiInterfaceText(a);
    PiLines(a);
    ProperPiNames(a.device);
    ProperPiAddress(a.address, a.mask);
    ProperPiRouters(a.gateway);
    ProperPiServers(a.dns);
    StaticKeys();
    RenderThen(d, rest);
    PiFieldsOf(Lines(d), Rest(d) + rest);
  }

  lemma {:induction false} DynamicInterfaceFields(rest: string)
    ensures Field(Render(WlanDhcpText) + rest, "auto ") == Some("wlan0")
    ensures Field(Render(WlanDhcpText) + rest, "iface ") == Some("wlan0 inet dhcp")
  {
    var lines := Lines(WlanDhcpText);
    DynamicLines();
    EarlyApart("iface ", "auto ");
    FieldAt(lines, Rest(WlanDhcpText) + rest, 1);
    FieldAt(lines, Rest(WlanDhcpText) + rest, 2);
    RenderThen(WlanDhcpText, rest);
  }

  lemma {:induction false} DynamicLines()
    ensures Proper(TextLine("", "", "")) && Proper(TextLine("    ", "auto ", "wlan0"))
    ensures Proper(TextLine("    ", "iface ", "wlan0 inet dhcp"))
  {
  }

  lemma {:induction false} CameraFields(rest: string)
    ensures Field(Render(CameraText) + rest, "start_x=") == Some("1")
    ensures Field(Render(CameraText) + rest, "gpu_mem=") == Some("128")
  {
    var lines := Lines(CameraText);
    EarlyApart("gpu_mem=", "start_x=");
    FieldAt(lines, Rest(CameraText) + rest, 1);
    FieldAt(lines, Rest(CameraText) + rest, 2);
    RenderThen(CameraText, rest);
  }

  lemma {:induction false} NameServers()
    ensures Render(NameServersText) == "append domain-name-servers 8.8.8.8, 8.8.4.4;"
  {
    assert Unlines([]) == "";
  }
}
