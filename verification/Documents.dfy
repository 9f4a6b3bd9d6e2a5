/** The texts that the callbacks store and write, from `device/config/constants.go` and the callbacks. */
module Documents {

  datatype Device = Eth0 | Wlan0

  datatype StaticAddress = StaticAddress(device: Device, address: string, mask: string, netmask: string,
                                         gateway: string, dns: string)

  datatype Document =
    | Plain(text: string)
    | LocaleConfText(locale: string)
    | EnvironmentText(locale: string)
    | KeymapText(layout: string)
    | WpaText(ssid: string, pass: string)
    | InterfaceText(at: StaticAddress)
    | PiInterfaceText(at: StaticAddress)
    | WlanDhcpText
    | NameServersText
    | CameraText

  function DeviceName(d: Device): string {
    if d.Eth0? then "eth0" else "wlan0"
  }

  /** A line: blanks, a key, and the value that follows it. */
  datatype TextLine = TextLine(indent: string, key: string, value: string)

  function Written(l: TextLine): string {
    l.indent + (l.key + l.value)
  }

  function Unlines(lines: seq<TextLine>): string {
    if lines == [] then "" else Written(lines[0]) + "\n" + Unlines(lines[1..])
  }

  /** The lines of a text; what follows the last one is `Rest`. */
  function Lines(d: Document): seq<TextLine> {
    match d
    case Plain(_) => []
    case LocaleConfText(l) => [TextLine("", "LANGUAGE=", l), TextLine("", "LANG=", l)]
    case EnvironmentText(l) => [TextLine("", "LC_ALL=", l)]
    case KeymapText(l) => [TextLine("", "KEYMAP=", l)]
    case WpaText(ssid, pass) =>
      [TextLine("", "ctrl_interface=", "DIR=/var/run/" + "wpa_supplicant" + " GROUP=netdev"),
       TextLine("    ", "country=", "us"),
       TextLine("\t", "update_config=", "1"), TextLine("", "", ""), TextLine("\t", "network=", "{"),
       TextLine("\t\t", "ssid=", "\\\"" + ssid + "\\\""), TextLine("\t\t", "psk=", "\\\"" + pass + "\\\""),
       TextLine("        ", "", ""), TextLine("\t", "}", "")]
    case InterfaceText(a) =>
      var name := DeviceName(a.device);
      [TextLine("", "auto ", name), TextLine("", "iface ", name + " inet static"), TextLine("", "address ", a.address),
       TextLine("", "netmask ", a.netmask), TextLine("", "gateway ", a.gateway),
       TextLine("", "dns-nameservers ", a.dns)] +
      if a.device.Eth0? then [TextLine("", "", ""), TextLine("", "iface ", "default inet dhcp")] else []
    case PiInterfaceText(a) =>
      [TextLine("", "", ""), TextLine("", "", ""), TextLine("", "interface ", DeviceName(a.device)),
       TextLine("\t", "noipv6rs", ""),
       TextLine("\t", "static ip_address=", a.address + "/" + a.mask), TextLine("\t", "static routers=", a.gateway),
       TextLine("\t", "static domain_name_servers=", a.dns)]
    case WlanDhcpText =>
      [TextLine("", "", ""), TextLine("    ", "auto ", "wlan0"), TextLine("    ", "iface ", "wlan0 inet dhcp")]
    case NameServersText => []
    case CameraText => [TextLine("", "", ""), TextLine("", "start_x=", "1"), TextLine("", "gpu_mem=", "128")]
  }

  function Rest(d: Document): string {
    match d
    case WpaText(_, _) => "\t"
    case NameServersText => "append domain-name-servers 8.8.8.8, 8.8.4.4;"
    case _ => ""
  }

  function Render(d: Document): (text: string)
    ensures d.Plain? ==> text == d.text
  {
    if d.Plain? then d.text else Unlines(Lines(d)) + Rest(d)
  }
}
