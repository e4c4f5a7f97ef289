/** What writing and reading interface configurations guarantees. */
module IfcfgTheorems {
  import opened Strings
  import opened Ifcfg

  // ----- What parsing yields -----

  /** An entry that its own printed line gives back. */
  predicate Plain(e: Entry) {
    && '=' !in e.key && '\n' !in e.key && '#' !in e.key
    && '=' !in e.value && '\n' !in e.value
  }

  predicate AllPlain(es: seq<Entry>) {
    forall i :: 0 <= i < |es| ==> Plain(es[i])
  }

  lemma {:induction false} SplitPartsFrom(s: string, sep: char, c: char)
    requires c !in s
    ensures forall i :: 0 <= i < |Split(s, sep)| ==> c !in Split(s, sep)[i]
  {
    if s != "" {
      SplitPartsFrom(s[1..], sep, c);
    }
  }

  lemma HashMember(s: string)
    ensures Contains(s, "#") <==> '#' in s
  {
    if '#' in s {
      var i :| 0 <= i < |s| && s[i] == '#';
      assert At(s, "#", i);
    }
    if Contains(s, "#") {
      var i: nat :| i + 1 <= |s| && At(s, "#", i);
      assert s[i] == s[i..i + 1][0] == '#';
    }
  }

  lemma ParsedLinePlain(line: string)
    requires '\n' !in line && ParseLine(line).Kept?
    ensures Plain(ParseLine(line).entry)
  {
    SplitPartsFrom(line, '=', '\n');
    HashMember(Split(line, '=')[0]);
  }

  lemma {:induction false} ParsedLinesPlain(lines: seq<string>)
    requires forall i :: 0 <= i < |lines| ==> '\n' !in lines[i]
    ensures AllPlain(ParseLines(lines))
  {
    if lines != [] {
      ParsedLinesPlain(lines[1..]);
      if ParseLine(lines[0]).Kept? {
        ParsedLinePlain(lines[0]);
      }
    }
  }

  /** Parsing any text yields plain entries only. */
  lemma ParsedIsPlain(text: string)
    ensures AllPlain(Parse(text))
  {
    ParsedLinesPlain(Split(text, '\n'));
  }

  /** The line is the entry's, possibly followed by "=" and something more. */
  predicate Reads(line: string, e: Entry) {
    && '=' !in e.key && '#' !in e.key && '=' !in e.value
    && Line(e) <= line && (Line(e) == line || line[|Line(e)|] == '=')
  }

  /** A line is kept with the text before its first "=" as its key and the text from there to the next "=", or to the
      end, as its value; it is skipped exactly if it has no "=", or a "#" before the first one. */
  lemma ParseLineIff(line: string, e: Entry)
    ensures ParseLine(line) == Kept(e) <==> Reads(line, e)
    ensures ParseLine(line) == Skipped <==>
            '=' !in line || exists i :: 0 <= i < |line| && line[i] == '#' && '=' !in line[..i]
  {
    if '=' !in line {
      SplitNone(line, '=');
    } else {
      var k := FirstAt(line, '=');
      var key, rest := line[..k], line[k + 1..];
      assert line == key + ['='] + rest;
      LineParts(line, key, rest);
      ReadsIff(key, rest, e.value);
      if Reads(line, e) {
        ReadsParsed(line, e);
      }
      hide ParseLine, Reads, Split;
      SkippedIff(line, k);
    }
  }

  lemma ReadsParsed(line: string, e: Entry)
    requires Reads(line, e)
    ensures ParseLine(line) == Kept(e)
  {
    var rest := line[|e.key| + 1..];
    assert line == e.key + ['='] + rest by {
      assert line[..|e.key| + 1] == Line(e)[..|e.key| + 1] == e.key + ['='];
    }
    LineParts(line, e.key, rest);
    ReadsIff(e.key, rest, e.value);
  }

  lemma ReadsIff(key: string, rest: string, value: string)
    requires '=' !in key
    ensures Reads(key + ['='] + rest, Entry(key, value)) <==> '#' !in key && Split(rest, '=')[0] == value
  {
    var line, e := key + ['='] + rest, Entry(key, value);
    FirstPartIff(rest, value);
    hide Split;
    if Line(e) <= line {
      assert line[|key| + 1..|Line(e)|] == value;
      assert value == rest[..|value|];
    }
    if value <= rest {
      assert rest == value + rest[|value|..];
      assert line == Line(e) + rest[|value|..];
    }
  }

  lemma SkippedIff(line: string, k: nat)
    requires k < |line| && line[k] == '=' && '=' !in line[..k]
    ensures '#' in line[..k] <==> exists i :: 0 <= i < |line| && line[i] == '#' && '=' !in line[..i]
  {
    if '#' in line[..k] {
      var i :| 0 <= i < k && line[..k][i] == '#';
      assert forall j :: 0 <= j < i ==> line[..i][j] == line[..k][j];
    }
    if i :| 0 <= i < |line| && line[i] == '#' && '=' !in line[..i] {
      assert forall j :: 0 <= j < i ==> line[j] == line[..i][j];
      assert i < k;
      assert line[..k][i] == '#';
    }
  }

  lemma LineParts(line: string, key: string, rest: string)
    requires '=' !in key && line == key + ['='] + rest
    ensures ParseLine(line) == if '#' in key then Skipped else Kept(Entry(key, Split(rest, '=')[0]))
  {
    SplitFirst(key, '=', rest);
    HashMember(key);
  }

  lemma {:induction false} FirstPartIff(s: string, p: string)
    ensures Split(s, '=')[0] == p <==> '=' !in p && p <= s && (p == s || s[|p|] == '=')
  {
    if s != "" && s[0] != '=' && p != "" {
      FirstPartIff(s[1..], p[1..]);
    }
  }

  lemma {:induction false} FirstAt(s: string, c: char) returns (k: nat)
    requires c in s
    ensures k < |s| && s[k] == c && c !in s[..k]
  {
    if s[0] == c { return 0; }
    k := FirstAt(s[1..], c);
    assert s[..k + 1] == [s[0]] + s[1..][..k];
    return k + 1;
  }
  
  // ----- Parsing what was printed -----

  /** Keys without separators, values on one line; a value may contain "=". */
  predicate Printable(es: seq<Entry>) {
    forall i :: 0 <= i < |es| ==>
      '=' !in es[i].key && '\n' !in es[i].key && '#' !in es[i].key && '\n' !in es[i].value
  }

  /** What is left of a value that contains "=". */
  function Cut(es: seq<Entry>): (r: seq<Entry>)
    ensures |r| == |es|
  {
    seq(|es|, i requires 0 <= i < |es| => Entry(es[i].key, Split(es[i].value, '=')[0]))
  }

  function Lines(es: seq<Entry>): (r: seq<string>)
    ensures |r| == |es|
  {
    seq(|es|, i requires 0 <= i < |es| => Line(es[i]))
  }

  lemma {:induction false} SplitAppendLine(a: string, line: string)
    requires '\n' !in line
    requires Split(a, '\n')[|Split(a, '\n')| - 1] == ""
    ensures Split(a + (line + ['\n']), '\n') == Split(a, '\n')[..|Split(a, '\n')| - 1] + [line, ""]
    decreases |a|
  {
    var s := a + (line + ['\n']);
    if a == "" {
      assert s == line + ['\n'] + "";
      SplitFirst(line, '\n', "");
    } else {
      assert s[1..] == a[1..] + (line + ['\n']);
      SplitAppendStep(a);
      SplitAppendLine(a[1..], line);
    }
  }

  lemma SplitAppendStep(a: string)
    requires a != "" && Split(a, '\n')[|Split(a, '\n')| - 1] == ""
    ensures Split(a[1..], '\n')[|Split(a[1..], '\n')| - 1] == ""
    ensures a[0] != '\n' ==> |Split(a[1..], '\n')| > 1
  {
  }

  /** The lines of a printed configuration are the lines of its entries, and an empty one. */
  lemma {:induction false} LinesOfPrint(es: seq<Entry>)
    requires forall i :: 0 <= i < |es| ==> '\n' !in es[i].key && '\n' !in es[i].value
    ensures Split(Print(es), '\n') == Lines(es) + [""]
  {
    if es != [] {
      var n := |es| - 1;
      LinesOfPrint(es[..n]);
      SplitAppendLine(Print(es[..n]), Line(es[n]));
    }
  }

  lemma ParseOwnLine(e: Entry)
    requires '=' !in e.key && '#' !in e.key
    ensures ParseLine(Line(e)) == Kept(Entry(e.key, Split(e.value, '=')[0]))
  {
    SplitFirst(e.key, '=', e.value);
    HashMember(e.key);
  }

  lemma {:induction false} ParseOwnLines(es: seq<Entry>)
    requires Printable(es)
    ensures ParseLines(Lines(es) + [""]) == Cut(es)
  {
    var lines := Lines(es) + [""];
    if es == [] {
    } else {
      assert lines[1..] == Lines(es[1..]) + [""];
      ParseOwnLine(es[0]);
      ParseOwnLines(es[1..]);
    }
  }

  lemma ParseOfPrint(es: seq<Entry>)
    requires Printable(es)
    ensures Parse(Print(es)) == Cut(es)
  {
    LinesOfPrint(es);
    ParseOwnLines(es);
  }

  lemma CutPlain(es: seq<Entry>)
    requires AllPlain(es)
    ensures Cut(es) == es && Printable(es)
  {
    forall i | 0 <= i < |es|
      ensures Cut(es)[i] == es[i]
    {
      SplitNone(es[i].value, '=');
    }
  }

  /** Parsing undoes printing exactly on plain entries. */
  lemma ParsePrintIff(es: seq<Entry>)
    ensures Parse(Print(es)) == es <==> AllPlain(es)
  {
    ParsedIsPlain(Print(es));
    if AllPlain(es) {
      CutPlain(es);
      ParseOfPrint(es);
    }
  }

  // ----- There and back -----

  predicate OneLine(args: Args) {
    '\n' !in args.ip && '\n' !in args.netmask && '\n' !in args.gateway && '\n' !in args.dns1 && '\n' !in args.dns2
  }

  lemma AddPrintable(es: seq<Entry>, word: string, value: string)
    requires Printable(es) && '\n' !in value
    requires '=' !in word && '\n' !in word && '#' !in word && Dropped(word)
    ensures Printable(Add(es, word, value))
    ensures DhcpEntries(Cut(Add(es, word, value))) == DhcpEntries(Cut(es))
  {
    hide Print, Contains, Split;
    if Add(es, word, value) != es {
      var last := Entry(word, Split(value, '=')[0]);
      assert Cut(es + [Entry(word, value)]) == Cut(es) + [last];
    }
  }

  lemma {:induction false} DhcpOfRewritten(es: seq<Entry>, args: Args)
    requires AllPlain(es)
    ensures DhcpEntries(Cut(Rewrite(es, args))) == DhcpEntries(es)
  {
    if es != [] {
      var n := |es| - 1;
      DhcpOfRewritten(es[..n], args);
      assert Cut(Rewrite(es, args))[..n] == Cut(Rewrite(es[..n], args));
      assert Plain(es[n]);
      SplitNone(es[n].value, '=');
    }
  }

  /** Switching an interface to a static address and back to dynamic loses nothing: the dynamic configuration
      written from the static one is the dynamic configuration of the original, for every parsed file and
      arguments on one line each. */
  lemma StaticAndBack(text: string, args: Args)
    requires OneLine(args)
    ensures var c := Parse(text);
            Print(DhcpEntries(Parse(Print(StaticEntries(c, args))))) == Print(DhcpEntries(c))
  {
    var c := Parse(text);
    ParsedIsPlain(text);
    StaticPrintable(c, args);
    ParseOfPrint(StaticEntries(c, args));
    DhcpOfRewritten(c, args);
  }

  lemma StaticPrintable(c: seq<Entry>, args: Args)
    requires AllPlain(c) && OneLine(args)
    ensures Printable(StaticEntries(c, args))
    ensures DhcpEntries(Cut(StaticEntries(c, args))) == DhcpEntries(Cut(Rewrite(c, args)))
  {
    hide Add, Cut, DhcpEntries, Print;
    RewritePrintable(c, args);
    AddPrintable(Rewrite(c, args), "IPADDR", args.ip);
    AddPrintable(WithIp(c, args), "NETMASK", args.netmask);
    AddPrintable(WithMask(c, args), "GATEWAY", args.gateway);
    AddPrintable(WithGateway(c, args), "DNS1", args.dns1);
    if args.dns2 != "" {
      AddPrintable(WithDns1(c, args), "DNS2", args.dns2);
    }
  }

  lemma RewritePrintable(c: seq<Entry>, args: Args)
    requires AllPlain(c) && OneLine(args)
    ensures Printable(Rewrite(c, args))
  {
  }

  // ----- What is added -----

  /** The place of an added line among the added lines, and the value it gets. */
  function Rank(key: string): int {
    if key == "IPADDR" then 1 else if key == "NETMASK" then 2 else if key == "GATEWAY" then 3
    else if key == "DNS1" then 4 else if key == "DNS2" then 5 else 0
  }

  function Given(key: string, args: Args): string {
    match Rank(key)
    case 1 => args.ip
    case 2 => args.netmask
    case 3 => args.gateway
    case 4 => args.dns1
    case _ => args.dns2
  }

  /** The rewritten entries in front, behind them some of the five added entries in their order. */
  predicate AddedUpTo(es: seq<Entry>, r: seq<Entry>, args: Args, rank: int) {
    && |es| <= |r| && r[..|es|] == Rewrite(es, args)
    && (forall i :: |es| <= i < |r| ==> 1 <= Rank(r[i].key) <= rank && r[i].value == Given(r[i].key, args))
    && forall i, j :: |es| <= i < j < |r| ==> Rank(r[i].key) < Rank(r[j].key)
  }

  lemma AddNext(es: seq<Entry>, r: seq<Entry>, args: Args, word: string)
    requires Rank(word) >= 1 && AddedUpTo(es, r, args, Rank(word) - 1)
    ensures AddedUpTo(es, Add(r, word, Given(word, args)), args, Rank(word))
  {
    hide Print, Contains, Rank, Given, Rewrite;
  }

  /** A static configuration is the entries of the file, rewritten in place, and behind them lines for what is missing,
      always in the same order; an empty second name server is never added. */
  lemma AddedInOrder(es: seq<Entry>, args: Args)
    ensures AddedUpTo(es, StaticEntries(es, args), args, if args.dns2 == "" then 4 else 5)
  {
    hide Add, Rewrite;
    assert AddedUpTo(es, Rewrite(es, args), args, 0) by {
      assert Rewrite(es, args)[..|es|] == Rewrite(es, args);
    }
    hide AddedUpTo;
    AddNext(es, Rewrite(es, args), args, "IPADDR");
    AddNext(es, WithIp(es, args), args, "NETMASK");
    AddNext(es, WithMask(es, args), args, "GATEWAY");
    AddNext(es, WithGateway(es, args), args, "DNS1");
    AddNext(es, WithDns1(es, args), args, "DNS2");
  }

  // ----- What is kept -----

  lemma {:induction false} ParseLinesAppend(a: seq<string>, b: seq<string>)
    ensures ParseLines(a + b) == ParseLines(a) + ParseLines(b)
    ensures forall line :: ParseLines([line]) == match ParseLine(line) case Skipped => [] case Kept(e) => [e]
  {
    hide ParseLine;
    forall line: string
      ensures ParseLines([line]) == match ParseLine(line) case Skipped => [] case Kept(e) => [e]
    {
      assert [line][1..] == [];
    }
    if a == [] {
      assert a + b == b;
    } else {
      assert (a + b)[0] == a[0] && (a + b)[1..] == a[1..] + b;
      ParseLinesAppend(a[1..], b);
    }
  }

  predicate Address(key: string) {
    key in {"BOOTPROTO", "IPADDR", "NETMASK", "GATEWAY", "DNS1", "DNS2"}
  }

  /** The entries that have nothing to do with addresses, in order. */
  function Others(es: seq<Entry>): seq<Entry> {
    if es == [] then []
    else Others(es[..|es| - 1]) + if Address(es[|es| - 1].key) then [] else [es[|es| - 1]]
  }

  function Count(es: seq<Entry>, key: string): nat {
    if es == [] then 0
    else Count(es[..|es| - 1], key) + if es[|es| - 1].key == key then 1 else 0
  }

  /** What a dynamic configuration keeps of the entries of a file. */
  predicate Dynamic(es: seq<Entry>, ds: seq<Entry>) {
    && AllPlain(ds) && Others(ds) == Others(es) && Count(ds, "BOOTPROTO") == Count(es, "BOOTPROTO")
    && forall e :: e in ds ==> !Address(e.key) || e == Entry("BOOTPROTO", "dhcp")
  }

  lemma DynamicOfNone()
    ensures Dynamic([], [])
  {
  }

  lemma DhcpOfLonger(es: seq<Entry>, e: Entry)
    ensures DhcpEntries(es + [e]) == DhcpEntries(es) + if e.key == "BOOTPROTO" then [Entry(e.key, "dhcp")]
                                                       else if Dropped(e.key) then [] else [e]
  {
    hide Dropped;
    assert (es + [e])[..|es + [e]| - 1] == es;
  }

  lemma {:induction false} DhcpKeeps(es: seq<Entry>)
    requires AllPlain(es)
    ensures Dynamic(es, DhcpEntries(es))
  {
    hide Dynamic, Dropped, Plain;
    if es == [] {
      DynamicOfNone();
    } else {
      var front, last := es[..|es| - 1], es[|es| - 1];
      DhcpKeeps(front);
      DhcpOfLonger(front, last);
      assert Plain(last);
      hide *;
      DynamicStep(front, DhcpEntries(front), last);
      assert es == front + [last];
    }
  }

  lemma DynamicStep(es: seq<Entry>, ds: seq<Entry>, e: Entry)
    requires Dynamic(es, ds) && Plain(e)
    ensures Dynamic(es + [e], ds + if e.key == "BOOTPROTO" then [Entry(e.key, "dhcp")]
                                   else if Dropped(e.key) then [] else [e])
  {
    OneMoreEntry(es, e);
    DroppedIsAddress(e.key);
    hide Address, Others, Count, Plain, Dropped;
    if e.key == "BOOTPROTO" {
      DynamicIsPlain();
      OneMoreEntry(ds, Entry("BOOTPROTO", "dhcp"));
    } else if Dropped(e.key) {
      assert ds + [] == ds && Others(es) + [] == Others(es);
    } else {
      OneMoreEntry(ds, e);
    }
  }

  lemma DynamicIsPlain()
    ensures Plain(Entry("BOOTPROTO", "dhcp")) && Address("BOOTPROTO")
  {
  }

  lemma DroppedIsAddress(key: string)
    ensures Address(key) <==> key == "BOOTPROTO" || Dropped(key)
  {
  }

  lemma OneMoreEntry(es: seq<Entry>, e: Entry)
    ensures Others(es + [e]) == Others(es) + if Address(e.key) then [] else [e]
    ensures Count(es + [e], "BOOTPROTO") == Count(es, "BOOTPROTO") + if e.key == "BOOTPROTO" then 1 else 0
  {
    assert (es + [e])[..|es + [e]| - 1] == es;
  }

  /** The dynamic configuration of a file, read again: every entry that has nothing to do with addresses, in order;
      one BOOTPROTO=dhcp for each BOOTPROTO of the file; and nothing else. */
  lemma DynamicText(text: string)
    ensures var es := Parse(text);
            var ds := Parse(Print(DhcpEntries(es)));
            && Others(ds) == Others(es) && Count(ds, "BOOTPROTO") == Count(es, "BOOTPROTO")
            && forall e :: e in ds ==> !Address(e.key) || e == Entry("BOOTPROTO", "dhcp")
  {
    ParsedIsPlain(text);
    DhcpKeeps(Parse(text));
    ParsePrintIff(DhcpEntries(Parse(text)));
  }

  lemma {:induction false} OthersRewritten(es: seq<Entry>, args: Args)
    requires AllPlain(es)
    ensures Others(Cut(Rewrite(es, args))) == Others(es)
  {
    if es != [] {
      var n := |es| - 1;
      OthersRewritten(es[..n], args);
      assert Cut(Rewrite(es, args))[..n] == Cut(Rewrite(es[..n], args));
      assert Plain(es[n]);
      SplitNone(es[n].value, '=');
    }
  }

  lemma AddKeepsOthers(es: seq<Entry>, word: string, value: string)
    requires Address(word)
    ensures Others(Cut(Add(es, word, value))) == Others(Cut(es))
  {
    hide Print, Contains, Split;
    if Add(es, word, value) != es {
      var last := Entry(word, Split(value, '=')[0]);
      assert Cut(es + [Entry(word, value)]) == Cut(es) + [last];
      OneMoreEntry(Cut(es), last);
    }
  }

  /** The static configuration of a file, read again, keeps every entry that has nothing to do with addresses, in
      order, whatever the addresses. */
  lemma StaticText(text: string, args: Args)
    requires OneLine(args)
    ensures Others(Parse(Print(StaticEntries(Parse(text), args)))) == Others(Parse(text))
  {
    var c := Parse(text);
    ParsedIsPlain(text);
    StaticPrintable(c, args);
    ParseOfPrint(StaticEntries(c, args));
    OthersRewritten(c, args);
    hide Add, Cut, Print, Parse, Others;
    AddKeepsOthers(Rewrite(c, args), "IPADDR", args.ip);
    AddKeepsOthers(WithIp(c, args), "NETMASK", args.netmask);
    AddKeepsOthers(WithMask(c, args), "GATEWAY", args.gateway);
    AddKeepsOthers(WithGateway(c, args), "DNS1", args.dns1);
    AddKeepsOthers(WithDns1(c, args), "DNS2", args.dns2);
  }
}
