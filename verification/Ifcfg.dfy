/** Interface configuration files: parsing them, printing them for static and for dynamic addresses, reading the
    settings back (pkg/utils/os/baseos/network.go:142-158, 186-194, 275-292, 303-371). */
module Ifcfg {
  import opened Strings
  import opened Numbers
  import opened NetMask
  import opened Sequences

  /** One `key=value` line, kept by the source as a map with a single key. */
  datatype Entry = Entry(key: string, value: string)

  datatype Config = Config(bootProto: string, ipAddr: string, netMask: string, gateWay: string,
                           dns1: string, dns2: string)

  datatype Args = Args(ip: string, netmask: string, gateway: string, dns1: string, dns2: string)

  // ----- Parsing and printing -----

  datatype Parsed = Skipped | Kept(entry: Entry)

  function ParseLine(line: string): Parsed {
    var parts := Split(line, '=');
    if |parts| == 1 then Skipped
    else if Contains(parts[0], "#") then Skipped
    else Kept(Entry(parts[0], parts[1]))
  }

  function ParseLines(lines: seq<string>): seq<Entry> {
    if lines == [] then []
    else match ParseLine(lines[0])
         case Skipped => ParseLines(lines[1..])
         case Kept(e) => [e] + ParseLines(lines[1..])
  }

  function Parse(text: string): seq<Entry> {
    ParseLines(Split(text, '\n'))
  }

  /** The loop of `ConfigNetworkConnect` over the lines of the file. */
  method ParseConfig(text: string) returns (oldnet: seq<Entry>)
    ensures oldnet == Parse(text)
  {
    oldnet := [];
    var lines := Split(text, '\n');
    for i := 0 to |lines|
      invariant oldnet + ParseLines(lines[i..]) == ParseLines(lines)
    {
      assert lines[i..][0] == lines[i] && lines[i..][1..] == lines[i + 1..];
      var strSlice := Split(lines[i], '=');
      if |strSlice| == 1 {
        continue;
      }
      if Contains(strSlice[0], "#") {
        continue;
      }
      Associative(oldnet, [Entry(strSlice[0], strSlice[1])], ParseLines(lines[i + 1..]));
      oldnet := oldnet + [Entry(strSlice[0], strSlice[1])];
    }
    assert lines[|lines|..] == [];
  }

  function Line(e: Entry): string {
    e.key + ['='] + e.value
  }

  function Print(es: seq<Entry>): string {
    if es == [] then "" else Print(es[..|es| - 1]) + (Line(es[|es| - 1]) + ['\n'])
  }

  // ----- Writing a configuration -----

  function StaticValue(e: Entry, args: Args): string {
    if e.key == "BOOTPROTO" then "static"
    else if e.key == "IPADDR" then args.ip
    else if e.key == "NETMASK" then args.netmask
    else if e.key == "GATEWAY" then args.gateway
    else if e.key == "DNS1" then args.dns1
    else if e.key == "DNS2" && args.dns2 != "" then args.dns2
    else e.value
  }

  function Rewrite(es: seq<Entry>, args: Args): (r: seq<Entry>)
    ensures |r| == |es|
  {
    seq(|es|, i requires 0 <= i < |es| => Entry(es[i].key, StaticValue(es[i], args)))
  }

  /** A line for `word` is added when the text so far does not contain the word anywhere. */
  function Add(es: seq<Entry>, word: string, value: string): seq<Entry> {
    if Contains(Print(es), word) then es else es + [Entry(word, value)]
  }

  function WithIp(es: seq<Entry>, args: Args): seq<Entry> {
    Add(Rewrite(es, args), "IPADDR", args.ip)
  }

  function WithMask(es: seq<Entry>, args: Args): seq<Entry> {
    Add(WithIp(es, args), "NETMASK", args.netmask)
  }

  function WithGateway(es: seq<Entry>, args: Args): seq<Entry> {
    Add(WithMask(es, args), "GATEWAY", args.gateway)
  }

  function WithDns1(es: seq<Entry>, args: Args): seq<Entry> {
    Add(WithGateway(es, args), "DNS1", args.dns1)
  }

  function StaticEntries(es: seq<Entry>, args: Args): seq<Entry> {
    if args.dns2 == "" then WithDns1(es, args) else Add(WithDns1(es, args), "DNS2", args.dns2)
  }

  method NetworkStatic(net: seq<Entry>, args: Args) returns (text: string)
    ensures text == Print(StaticEntries(net, args))
  {
    text := "";
    for i := 0 to |net|
      invariant text == Print(Rewrite(net[..i], args))
    {
      var key, value := net[i].key, net[i].value;
      ghost var before := Rewrite(net[..i], args);
      PrintAppend(before, Entry(key, StaticValue(net[i], args)));
      assert Rewrite(net[..i + 1], args) == before + [Entry(key, StaticValue(net[i], args))];
      if key == "BOOTPROTO" {
        text := text + (key + "=" + "static" + "\n");
      } else if key == "IPADDR" {
        text := text + (key + "=" + args.ip + "\n");
      } else if key == "NETMASK" {
        text := text + (key + "=" + args.netmask + "\n");
      } else if key == "GATEWAY" {
        text := text + (key + "=" + args.gateway + "\n");
      } else if key == "DNS1" {
        text := text + (key + "=" + args.dns1 + "\n");
      } else if key == "DNS2" && |args.dns2| != 0 {
        text := text + (key + "=" + args.dns2 + "\n");
      } else {
        text := text + (key + "=" + value + "\n");
      }
    }
    assert net[..|net|] == net;
    text := AddLine(text, "IPADDR", args.ip, Rewrite(net, args));
    text := AddLine(text, "NETMASK", args.netmask, WithIp(net, args));
    text := AddLine(text, "GATEWAY", args.gateway, WithMask(net, args));
    text := AddLine(text, "DNS1", args.dns1, WithGateway(net, args));
    if !Contains(text, "DNS2") {
      if |args.dns2| != 0 {
        PrintAppend(WithDns1(net, args), Entry("DNS2", args.dns2));
        var t := "DNS2" + "=" + args.dns2 + "\n";
        text := text + t;
      }
    }
  }

  method AddLine(text: string, word: string, value: string, ghost es: seq<Entry>) returns (longer: string)
    requires text == Print(es)
    ensures longer == Print(Add(es, word, value))
  {
    longer := text;
    if !Contains(text, word) {
      PrintAppend(es, Entry(word, value));
      var t := word + "=" + value + "\n";
      longer := longer + t;
    }
  }

  lemma PrintAppend(es: seq<Entry>, e: Entry)
    ensures Print(es + [e]) == Print(es) + (e.key + "=" + e.value + "\n")
  {
  }

  predicate Dropped(key: string) {
    key in {"IPADDR", "NETMASK", "GATEWAY", "DNS1", "DNS2"}
  }

  function DhcpEntries(es: seq<Entry>): seq<Entry> {
    if es == [] then []
    else
      var last := es[|es| - 1];
      DhcpEntries(es[..|es| - 1])
      + if last.key == "BOOTPROTO" then [Entry(last.key, "dhcp")] else if Dropped(last.key) then [] else [last]
  }

  lemma DhcpAppend(es: seq<Entry>, e: Entry)
    ensures Print(DhcpEntries(es + [e])) == Print(DhcpEntries(es))
              + if e.key == "BOOTPROTO" then e.key + "=" + "dhcp" + "\n"
                else if Dropped(e.key) then "" else e.key + "=" + e.value + "\n"
  {
    assert (es + [e])[..|es|] == es;
    if e.key == "BOOTPROTO" {
      PrintAppend(DhcpEntries(es), Entry(e.key, "dhcp"));
    } else if Dropped(e.key) {
      assert DhcpEntries(es) + [] == DhcpEntries(es);
    } else {
      PrintAppend(DhcpEntries(es), e);
    }
  }

  /** `break` leaves the loop over the single key of an entry, so such an entry adds nothing. */
  method NetworkDHCP(net: seq<Entry>) returns (text: string)
    ensures text == Print(DhcpEntries(net))
  {
    hide Print, DhcpEntries;
    text := "";
    NoEntries();
    for i := 0 to |net|
      invariant text == Print(DhcpEntries(net[..i]))
    {
      DhcpAppend(net[..i], net[i]);
      assert net[..i + 1] == net[..i] + [net[i]];
      var key, value := net[i].key, net[i].value;
      if key == "BOOTPROTO" {
        text := text + (key + "=" + "dhcp" + "\n");
      } else if key == "IPADDR" {
      } else if key == "NETMASK" {
      } else if key == "GATEWAY" {
      } else if key == "DNS1" {
      } else if key == "DNS2" {
      } else {
        text := text + (key + "=" + value + "\n");
      }
    }
    assert net[..|net|] == net;
  }

  lemma NoEntries()
    ensures Print(DhcpEntries([])) == ""
  {
  }

  // ----- Reading the settings -----

  function ModuleMatch(key: string, value: string, c: Config): Config {
    if key == "IPADDR" then c.(ipAddr := value)
    else if key == "NETMASK" then c.(netMask := value)
    else if key == "GATEWAY" then c.(gateWay := value)
    else if key == "DNS1" then c.(dns1 := value)
    else if key == "DNS2" then c.(dns2 := value)
    else if key == "BOOTPROTO" then c.(bootProto := value)
    else if key == "PREFIX" then c.(netMask := Dotted(MaskOctets(Atoi(value))))
    else c
  }

  const NOTHING := Config("", "", "", "", "", "")

  function ReadLine(line: string, c: Config): Config {
    var parts := Split(TrimSpace(line), '=');
    if |parts| == 1 then c else ModuleMatch(parts[0], parts[1], c)
  }

  function ReadLines(lines: seq<string>): Config {
    if lines == [] then NOTHING else ReadLine(lines[|lines| - 1], ReadLines(lines[..|lines| - 1]))
  }

  /** The loop of `GetNetworkConnInfo` over the lines of the file. */
  method ReadConfig(text: string) returns (network: Config)
    ensures network == ReadLines(Split(text, '\n'))
  {
    network := NOTHING;
    var lines := Split(text, '\n');
    for i := 0 to |lines|
      invariant network == ReadLines(lines[..i])
    {
      assert lines[..i + 1][..i] == lines[..i];
      var line := TrimSpace(lines[i]);
      var strSlice := Split(line, '=');
      if |strSlice| == 1 {
        continue;
      }
      network := ModuleMatch(strSlice[0], strSlice[1], network);
    }
    assert lines[..|lines|] == lines;
  }
}
