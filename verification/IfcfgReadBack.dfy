/** Reading the settings back from a configuration written for a static address. */
module IfcfgReadBack {
  import opened Strings
  import opened Numbers
  import opened NetMask
  import opened Ifcfg
  import opened IfcfgTheorems

  // ----- What reading a printed configuration computes -----

  /** Reading trims each line, so a key loses leading and a value trailing white space. */
  function Trimmed(es: seq<Entry>): (r: seq<Entry>)
    ensures |r| == |es|
  {
    seq(|es|, i requires 0 <= i < |es| => Entry(TrimLeft(es[i].key), TrimRight(es[i].value)))
  }

  function Fold(es: seq<Entry>): Config {
    if es == [] then NOTHING
    else ModuleMatch(es[|es| - 1].key, es[|es| - 1].value, Fold(es[..|es| - 1]))
  }

  lemma {:induction false} TrimLeftOfLine(key: string, rest: string)
    ensures TrimLeft(key + (['='] + rest)) == TrimLeft(key) + (['='] + rest)
  {
    var s := key + (['='] + rest);
    if key == "" {
    } else {
      assert s[1..] == key[1..] + (['='] + rest);
      if IsSpace(key[0]) {
        TrimLeftOfLine(key[1..], rest);
      }
    }
  }

  lemma {:induction false} TrimRightOfLine(start: string, value: string)
    ensures TrimRight((start + ['=']) + value) == (start + ['=']) + TrimRight(value)
  {
    var s := (start + ['=']) + value;
    if value == "" {
    } else {
      var n := |value| - 1;
      assert s[..|s| - 1] == (start + ['=']) + value[..n];
      if IsSpace(value[n]) {
        TrimRightOfLine(start, value[..n]);
      }
    }
  }

  lemma {:induction false} TrimIsPart(s: string, c: char)
    requires c !in s
    ensures c !in TrimLeft(s) && c !in TrimRight(s)
  {
    if s != "" {
      TrimIsPart(s[1..], c);
      TrimIsPart(s[..|s| - 1], c);
    }
  }

  lemma ReadOwnLine(e: Entry, c: Config)
    requires '=' !in e.key && '=' !in e.value
    ensures ReadLine(Line(e), c) == ModuleMatch(TrimLeft(e.key), TrimRight(e.value), c)
  {
    hide TrimLeft, TrimRight, Split, ModuleMatch;
    var k, v := TrimLeft(e.key), TrimRight(e.value);
    assert Line(e) == e.key + (['='] + e.value);
    TrimLeftOfLine(e.key, e.value);
    assert k + (['='] + e.value) == (k + ['=']) + e.value;
    TrimRightOfLine(k, e.value);
    TrimIsPart(e.key, '=');
    TrimIsPart(e.value, '=');
    SplitFirst(k, '=', v);
    SplitNone(v, '=');
  }

  lemma {:induction false} ReadOwnLines(es: seq<Entry>)
    requires forall i :: 0 <= i < |es| ==> '=' !in es[i].key && '=' !in es[i].value
    ensures ReadLines(Lines(es)) == Fold(Trimmed(es))
  {
    if es != [] {
      var n := |es| - 1;
      ReadOwnLines(es[..n]);
      assert Lines(es)[..n] == Lines(es[..n]) && Trimmed(es)[..n] == Trimmed(es[..n]);
      ReadOwnLine(es[n], ReadLines(Lines(es[..n])));
    }
  }

  predicate OnOneLine(es: seq<Entry>) {
    forall i :: 0 <= i < |es| ==> '=' !in es[i].key && '=' !in es[i].value && '\n' !in es[i].key && '\n' !in es[i].value
  }

  /** Reading what was printed is folding `ModuleMatch` over the trimmed entries. */
  lemma ReadOfPrint(es: seq<Entry>)
    requires OnOneLine(es)
    ensures ReadLines(Split(Print(es), '\n')) == Fold(Trimmed(es))
  {
    LinesOfPrint(es);
    ReadOwnLines(es);
    var lines := Lines(es) + [""];
  }

  // ----- The last value of each key -----

  function LastValue(es: seq<Entry>, key: string): string {
    if es == [] then ""
    else if es[|es| - 1].key == key then es[|es| - 1].value
    else LastValue(es[..|es| - 1], key)
  }

  /** The netmask left by the last NETMASK or PREFIX entry. */
  function LastMask(es: seq<Entry>): string {
    if es == [] then ""
    else if es[|es| - 1].key == "NETMASK" then es[|es| - 1].value
    else if es[|es| - 1].key == "PREFIX" then Dotted(MaskOctets(Atoi(es[|es| - 1].value)))
    else LastMask(es[..|es| - 1])
  }

  lemma {:induction false} FoldFields(es: seq<Entry>)
    ensures Fold(es) == Config(LastValue(es, "BOOTPROTO"), LastValue(es, "IPADDR"), LastMask(es),
                               LastValue(es, "GATEWAY"), LastValue(es, "DNS1"), LastValue(es, "DNS2"))
  {
    if es != [] {
      FoldFields(es[..|es| - 1]);
    }
  }

  // ----- Rewritten and added entries -----

  predicate Name(w: string) {
    w in {"BOOTPROTO", "IPADDR", "NETMASK", "GATEWAY", "DNS1", "DNS2"}
  }

  function Wanted(w: string, args: Args): string {
    if w == "BOOTPROTO" then "static" else if w == "IPADDR" then args.ip else if w == "NETMASK" then args.netmask
    else if w == "GATEWAY" then args.gateway else if w == "DNS1" then args.dns1 else args.dns2
  }

  /** Arguments that one line carries unchanged: no line break, no "=", no white space at the end. */
  predicate Carried(v: string) {
    '\n' !in v && '=' !in v && TrimRight(v) == v
  }

  predicate AllCarried(args: Args) {
    Carried(args.ip) && Carried(args.netmask) && Carried(args.gateway) && Carried(args.dns1) && Carried(args.dns2)
  }

  predicate HasKey(es: seq<Entry>, w: string) {
    exists i :: 0 <= i < |es| && es[i].key == w
  }

  /** No key becomes one of the names only by losing white space in front. */
  predicate Aligned(es: seq<Entry>) {
    forall i :: 0 <= i < |es| && Name(TrimLeft(es[i].key)) ==> es[i].key == TrimLeft(es[i].key)
  }

  lemma NameStays(w: string)
    requires Name(w)
    ensures TrimLeft(w) == w
  {
  }

  lemma {:induction false} LastRewritten(c: seq<Entry>, args: Args, w: string)
    requires Aligned(c) && AllCarried(args) && Name(w) && (w == "DNS2" ==> args.dns2 != "")
    ensures LastValue(Trimmed(Rewrite(c, args)), w) == if HasKey(c, w) then Wanted(w, args) else ""
  {
    hide TrimLeft, TrimRight, StaticValue, HasKey, Carried, Name, Wanted;
    if c != [] {
      var n := |c| - 1;
      LastRewritten(c[..n], args, w);
      assert Trimmed(Rewrite(c, args))[..n] == Trimmed(Rewrite(c[..n], args));
      NamedEntry(c[n], args, w);
      HasKeyLast(c, w);
    } else {
      NoKeys(w);
    }
  }

  lemma NamedEntry(e: Entry, args: Args, w: string)
    requires AllCarried(args) && Name(w) && (w == "DNS2" ==> args.dns2 != "")
    requires Name(TrimLeft(e.key)) ==> e.key == TrimLeft(e.key)
    ensures TrimLeft(e.key) == w <==> e.key == w
    ensures e.key == w ==> TrimRight(StaticValue(e, args)) == Wanted(w, args)
  {
  }

  lemma HasKeyLast(es: seq<Entry>, w: string)
    requires es != []
    ensures HasKey(es, w) <==> HasKey(es[..|es| - 1], w) || es[|es| - 1].key == w
  {
  }

  /** Without a second name server the old DNS2 stays. */
  lemma {:induction false} LastDns2Stays(c: seq<Entry>, args: Args)
    requires args.dns2 == "" && Aligned(c)
    ensures LastValue(Trimmed(Rewrite(c, args)), "DNS2") == LastValue(Trimmed(c), "DNS2")
  {
    hide TrimLeft, TrimRight, StaticValue;
    if c != [] {
      var n := |c| - 1;
      LastDns2Stays(c[..n], args);
      assert Trimmed(Rewrite(c, args))[..n] == Trimmed(Rewrite(c[..n], args)) && Trimmed(c)[..n] == Trimmed(c[..n]);
      Dns2Entry(c[n], args);
    }
  }

  lemma Dns2Entry(e: Entry, args: Args)
    requires args.dns2 == "" && (Name(TrimLeft(e.key)) ==> e.key == TrimLeft(e.key))
    ensures TrimLeft(e.key) == "DNS2" ==> StaticValue(e, args) == e.value
  {
  }

  lemma LastAdded(es: seq<Entry>, word: string, value: string, w: string)
    requires Name(word) && Carried(value)
    ensures LastValue(Trimmed(Add(es, word, value)), w)
         == if w == word && !Contains(Print(es), word) then value else LastValue(Trimmed(es), w)
    ensures LastMask(Trimmed(Add(es, word, value)))
         == if word == "NETMASK" && !Contains(Print(es), word) then value else LastMask(Trimmed(es))
  {
    NameStays(word);
    var longer := Trimmed(es + [Entry(word, value)]);
    assert longer[..|es|] == Trimmed(es);
  }

  /** The last mask entry of the old configuration is a prefix length, not a netmask. */
  predicate PrefixLast(es: seq<Entry>) {
    es != []
    && (TrimLeft(es[|es| - 1].key) == "PREFIX" || (es[|es| - 1].key != "NETMASK" && PrefixLast(es[..|es| - 1])))
  }

  /** Rewriting replaces the value of a NETMASK entry and leaves a PREFIX entry alone. */
  lemma MaskEntry(e: Entry, args: Args)
    requires AllCarried(args) && (Name(TrimLeft(e.key)) ==> e.key == TrimLeft(e.key))
    ensures TrimLeft(e.key) == "NETMASK" <==> e.key == "NETMASK"
    ensures e.key == "NETMASK" ==> TrimRight(StaticValue(e, args)) == args.netmask
    ensures TrimLeft(e.key) == "PREFIX" ==> StaticValue(e, args) == e.value
  {
  }

  lemma {:induction false} LastMaskRewritten(c: seq<Entry>, args: Args)
    requires Aligned(c) && AllCarried(args)
    ensures LastMask(Trimmed(Rewrite(c, args)))
         == if PrefixLast(c) then LastMask(Trimmed(c)) else if HasKey(c, "NETMASK") then args.netmask else ""
  {
    hide TrimLeft, TrimRight, StaticValue, HasKey, Carried, Dotted, MaskOctets, Atoi;
    if c != [] {
      var n := |c| - 1;
      LastMaskRewritten(c[..n], args);
      assert Trimmed(Rewrite(c, args))[..n] == Trimmed(Rewrite(c[..n], args)) && Trimmed(c)[..n] == Trimmed(c[..n]);
      MaskEntry(c[n], args);
      HasKeyLast(c, "NETMASK");
    } else {
      NoKeys("NETMASK");
    }
  }

  lemma NoKeys(w: string)
    ensures !HasKey([], w)
  {
  }

  lemma StaticOnOneLine(c: seq<Entry>, args: Args)
    requires AllPlain(c) && AllCarried(args)
    ensures OnOneLine(StaticEntries(c, args))
  {
    var r := Rewrite(c, args);
    forall i | 0 <= i < |r|
      ensures '=' !in r[i].key && '=' !in r[i].value && '\n' !in r[i].key && '\n' !in r[i].value
    {
      CarriedValue(c[i], args);
    }
    AddOnOneLine(r, "IPADDR", args.ip);
    AddOnOneLine(WithIp(c, args), "NETMASK", args.netmask);
    AddOnOneLine(WithMask(c, args), "GATEWAY", args.gateway);
    AddOnOneLine(WithGateway(c, args), "DNS1", args.dns1);
    AddOnOneLine(WithDns1(c, args), "DNS2", args.dns2);
  }

  lemma CarriedValue(e: Entry, args: Args)
    requires Plain(e) && AllCarried(args)
    ensures '=' !in StaticValue(e, args) && '\n' !in StaticValue(e, args)
  {
  }

  lemma AddOnOneLine(es: seq<Entry>, word: string, value: string)
    requires OnOneLine(es) && Carried(value) && '=' !in word && '\n' !in word
    ensures OnOneLine(Add(es, word, value))
  {
  }

  /** The settings as read back from a static configuration. */
  function ReadBack(c: seq<Entry>, args: Args): Config {
    ReadLines(Split(Print(StaticEntries(c, args)), '\n'))
  }

  /** Field by field, for every parsed configuration whose keys are aligned: a setting is read back when the
      old file has its key, or when the text written so far does not contain the key's name anywhere. */
  lemma ReadBackFields(c: seq<Entry>, args: Args)
    requires AllPlain(c) && Aligned(c) && AllCarried(args)
    ensures var r := ReadBack(c, args);
            && r.bootProto == (if HasKey(c, "BOOTPROTO") then "static" else "")
            && r.ipAddr == (if HasKey(c, "IPADDR") || !Contains(Print(Rewrite(c, args)), "IPADDR") then args.ip else "")
            && r.gateWay == (if HasKey(c, "GATEWAY") || !Contains(Print(WithMask(c, args)), "GATEWAY")
                             then args.gateway else "")
            && r.dns1 == (if HasKey(c, "DNS1") || !Contains(Print(WithGateway(c, args)), "DNS1") then args.dns1 else "")
            && r.dns2 == (if args.dns2 == "" then LastValue(Trimmed(c), "DNS2")
                          else if HasKey(c, "DNS2") || !Contains(Print(WithDns1(c, args)), "DNS2")
                          then args.dns2 else "")
            && r.netMask == (if !Contains(Print(WithIp(c, args)), "NETMASK") then args.netmask
                             else if PrefixLast(c) then LastMask(Trimmed(c))
                             else if HasKey(c, "NETMASK") then args.netmask else "")
  {
    hide Print, Trimmed, Aligned, HasKey, LastValue, LastMask, Rewrite, Add, PrefixLast, Contains, Carried;
    var es := StaticEntries(c, args);
    StaticOnOneLine(c, args);
    ReadOfPrint(es);
    FoldFields(Trimmed(es));
    Chain(c, args, "BOOTPROTO");
    Chain(c, args, "IPADDR");
    Chain(c, args, "GATEWAY");
    Chain(c, args, "DNS1");
    Chain(c, args, "DNS2");
    LastRewritten(c, args, "BOOTPROTO");
    LastRewritten(c, args, "IPADDR");
    LastRewritten(c, args, "GATEWAY");
    LastRewritten(c, args, "DNS1");
    if args.dns2 != "" {
      LastRewritten(c, args, "DNS2");
    } else {
      LastDns2Stays(c, args);
    }
    LastMaskRewritten(c, args);
  }

  /** Through the five additions, the last value of a name. */
  lemma Chain(c: seq<Entry>, args: Args, w: string)
    requires AllCarried(args) && Name(w)
    ensures LastValue(Trimmed(StaticEntries(c, args)), w)
         == if w == "IPADDR" && !Contains(Print(Rewrite(c, args)), w) then args.ip
            else if w == "NETMASK" && !Contains(Print(WithIp(c, args)), w) then args.netmask
            else if w == "GATEWAY" && !Contains(Print(WithMask(c, args)), w) then args.gateway
            else if w == "DNS1" && !Contains(Print(WithGateway(c, args)), w) then args.dns1
            else if w == "DNS2" && args.dns2 != "" && !Contains(Print(WithDns1(c, args)), w) then args.dns2
            else LastValue(Trimmed(Rewrite(c, args)), w)
    ensures LastMask(Trimmed(StaticEntries(c, args)))
         == if !Contains(Print(WithIp(c, args)), "NETMASK") then args.netmask else LastMask(Trimmed(Rewrite(c, args)))
  {
    hide Print, Trimmed, LastValue, LastMask, Rewrite, Add, Contains, Carried;
    LastAdded(Rewrite(c, args), "IPADDR", args.ip, w);
    LastAdded(WithIp(c, args), "NETMASK", args.netmask, w);
    LastAdded(WithMask(c, args), "GATEWAY", args.gateway, w);
    LastAdded(WithGateway(c, args), "DNS1", args.dns1, w);
    if args.dns2 != "" {
      LastAdded(WithDns1(c, args), "DNS2", args.dns2, w);
    }
  }

  // ----- Configurations in which the names occur only as keys -----

  /** A name occurs in no other key and in no value. */
  predicate Clear(es: seq<Entry>, w: string) {
    forall i :: 0 <= i < |es| ==> (es[i].key == w || !Contains(es[i].key, w)) && !Contains(es[i].value, w)
  }

  predicate ClearOf(v: string) {
    && !Contains(v, "IPADDR") && !Contains(v, "NETMASK") && !Contains(v, "GATEWAY") && !Contains(v, "DNS1")
    && !Contains(v, "DNS2") && !Contains(v, "BOOTPROTO")
  }

  ghost predicate AllClear(c: seq<Entry>, args: Args) {
    && (forall w :: Name(w) ==> Clear(c, w))
    && ClearOf(args.ip) && ClearOf(args.netmask) && ClearOf(args.gateway) && ClearOf(args.dns1) && ClearOf(args.dns2)
  }

  /** A word is not contained in a text that lacks one of its letters. */
  lemma LacksLetter(s: string, w: string, i: nat)
    requires i < |w| && w[i] !in s
    ensures !Contains(s, w)
  {
  }

  /** No name is part of another one, or of the word "static". */
  lemma NamesApart(w: string, v: string)
    requires Name(w) && (Name(v) || v == "static") && v != w
    ensures !Contains(v, w)
  {
    if v == "static" {
    } else if w == "BOOTPROTO" { LacksLetter(v, w, 0); }
    else if w == "IPADDR" { LacksLetter(v, w, 0); }
    else if w == "NETMASK" { assert w[3] == 'M'; LacksLetter(v, w, 3); }
    else if w == "GATEWAY" { LacksLetter(v, w, 0); }
    else if w == "DNS1" { assert w[3] == '1'; LacksLetter(v, w, 3); }
    else { assert w[3] == '2'; LacksLetter(v, w, 3); }
  }

  /** A word is contained in a printed configuration exactly when a key or a value contains it. */
  lemma {:induction false} ContainsPrint(es: seq<Entry>, w: string)
    requires w != "" && '=' !in w && '\n' !in w
    ensures Contains(Print(es), w)
       <==> exists i :: 0 <= i < |es| && (Contains(es[i].key, w) || Contains(es[i].value, w))
  {
    if es == [] {
      assert Print(es) == "";
    } else {
      var n := |es| - 1;
      var e := es[n];
      ContainsPrint(es[..n], w);
      ContainsAround(e.key, '=', e.value, w);
      LinePlusBreak(Print(es[..n]), Line(e), w);
      if i :| 0 <= i < n && (Contains(es[..n][i].key, w) || Contains(es[..n][i].value, w)) {
        assert es[i] == es[..n][i];
      }
      if i :| 0 <= i < |es| && (Contains(es[i].key, w) || Contains(es[i].value, w)) && i < n {
        assert es[..n][i] == es[i];
      }
    }
  }

  /** Text that is empty or ends in a line break, a line, a line break. */
  lemma LinePlusBreak(a: string, line: string, w: string)
    requires w != "" && '\n' !in w && (a == "" || a[|a| - 1] == '\n')
    ensures Contains(a + (line + ['\n']), w) <==> Contains(a, w) || Contains(line, w)
  {
    if a == "" {
      assert a + (line + ['\n']) == line + ['\n'] + "";
      ContainsAround(line, '\n', "", w);
    } else {
      var n := |a| - 1;
      var start := a[..n];
      assert a == start + ['\n'] + "";
      assert a + (line + ['\n']) == start + ['\n'] + (line + ['\n']);
      ContainsAround(start, '\n', line + ['\n'], w);
      ContainsAround(start, '\n', "", w);
      assert line + ['\n'] == line + ['\n'] + "";
      ContainsAround(line, '\n', "", w);
    }
  }

  lemma NothingInNothing(w: string)
    requires w != ""
    ensures !Contains("", w)
  {
  }

  lemma RewriteClear(c: seq<Entry>, args: Args, w: string)
    requires AllClear(c, args) && Name(w)
    ensures Clear(Rewrite(c, args), w)
  {
    var r := Rewrite(c, args);
    NamesApart(w, "static");
    forall i | 0 <= i < |r|
      ensures (r[i].key == w || !Contains(r[i].key, w)) && !Contains(r[i].value, w)
    {
    }
  }

  lemma AddClear(es: seq<Entry>, word: string, value: string, w: string)
    requires Clear(es, w) && Name(w) && Name(word) && word != w && ClearOf(value)
    ensures Clear(Add(es, word, value), w)
    ensures HasKey(Add(es, word, value), w) <==> HasKey(es, w)
  {
    NamesApart(w, word);
    var r := Add(es, word, value);
    if HasKey(es, w) {
      var i :| 0 <= i < |es| && es[i].key == w;
      assert r[i].key == w;
    }
  }

  /** When a name occurs in no other key and no value, the text contains it exactly when it is a key. */
  lemma ClearContains(es: seq<Entry>, w: string)
    requires Clear(es, w) && Name(w)
    ensures Contains(Print(es), w) ==> HasKey(es, w)
  {
    ContainsPrint(es, w);
  }

  lemma KeysRewritten(c: seq<Entry>, args: Args, w: string)
    ensures HasKey(Rewrite(c, args), w) <==> HasKey(c, w)
  {
    var r := Rewrite(c, args);
    if i :| 0 <= i < |c| && c[i].key == w { assert r[i].key == w; }
    if i :| 0 <= i < |c| && r[i].key == w { assert c[i].key == w; }
  }

  lemma {:induction false} TrimLeftInside(s: string, w: string)
    requires TrimLeft(s) == w
    ensures Contains(s, w)
  {
    if s != "" && IsSpace(s[0]) {
      TrimLeftInside(s[1..], w);
      ContainsInside([s[0]], s[1..], "", w);
      assert [s[0]] + s[1..] + "" == s;
    } else {
      assert At(s, w, 0);
    }
  }

  lemma ClearIsAligned(c: seq<Entry>, args: Args)
    requires AllClear(c, args)
    ensures Aligned(c)
  {
    forall i | 0 <= i < |c| && Name(TrimLeft(c[i].key))
      ensures c[i].key == TrimLeft(c[i].key)
    {
      TrimLeftInside(c[i].key, TrimLeft(c[i].key));
    }
  }

  /** The text written before the line for `w` is considered contains `w` only if the old file has that key. */
  lemma OnlyOwnKey(c: seq<Entry>, args: Args)
    requires AllClear(c, args)
    ensures Contains(Print(Rewrite(c, args)), "IPADDR") ==> HasKey(c, "IPADDR")
    ensures Contains(Print(WithIp(c, args)), "NETMASK") ==> HasKey(c, "NETMASK")
    ensures Contains(Print(WithMask(c, args)), "GATEWAY") ==> HasKey(c, "GATEWAY")
    ensures Contains(Print(WithGateway(c, args)), "DNS1") ==> HasKey(c, "DNS1")
    ensures Contains(Print(WithDns1(c, args)), "DNS2") ==> HasKey(c, "DNS2")
  {
    hide Print, Clear, Rewrite, Add, HasKey, ClearOf, Contains;
    Added(c, args, "IPADDR");
    Added(c, args, "NETMASK");
    Added(c, args, "GATEWAY");
    Added(c, args, "DNS1");
    Added(c, args, "DNS2");
    ClearContains(Rewrite(c, args), "IPADDR");
    ClearContains(WithIp(c, args), "NETMASK");
    ClearContains(WithMask(c, args), "GATEWAY");
    ClearContains(WithGateway(c, args), "DNS1");
    ClearContains(WithDns1(c, args), "DNS2");
  }

  lemma Added(c: seq<Entry>, args: Args, w: string)
    requires AllClear(c, args) && Name(w)
    ensures w == "IPADDR" ==> Clear(Rewrite(c, args), w) && (HasKey(Rewrite(c, args), w) <==> HasKey(c, w))
    ensures w == "NETMASK" ==> Clear(WithIp(c, args), w) && (HasKey(WithIp(c, args), w) <==> HasKey(c, w))
    ensures w == "GATEWAY" ==> Clear(WithMask(c, args), w) && (HasKey(WithMask(c, args), w) <==> HasKey(c, w))
    ensures w == "DNS1" ==> Clear(WithGateway(c, args), w) && (HasKey(WithGateway(c, args), w) <==> HasKey(c, w))
    ensures w == "DNS2" ==> Clear(WithDns1(c, args), w) && (HasKey(WithDns1(c, args), w) <==> HasKey(c, w))
  {
    hide Print, Clear, Rewrite, Add, HasKey, ClearOf, Contains;
    RewriteClear(c, args, w);
    KeysRewritten(c, args, w);
    if w != "IPADDR" {
      AddClear(Rewrite(c, args), "IPADDR", args.ip, w);
      if w != "NETMASK" {
        AddClear(WithIp(c, args), "NETMASK", args.netmask, w);
        if w != "GATEWAY" {
          AddClear(WithMask(c, args), "GATEWAY", args.gateway, w);
          if w != "DNS1" {
            AddClear(WithGateway(c, args), "DNS1", args.dns1, w);
          }
        }
      }
    }
  }

  /** The read-back theorem: for every parsed old configuration with a BOOTPROTO key in which the names occur
      only as keys and no PREFIX follows the last NETMASK, writing static settings and reading the file gives
      exactly the settings written. Without a second name server the old one stays. */
  lemma StaticIsReadBack(text: string, args: Args)
    requires AllCarried(args) && AllClear(Parse(text), args)
    requires HasKey(Parse(text), "BOOTPROTO")
    requires !(HasKey(Parse(text), "NETMASK") && PrefixLast(Parse(text)))
    ensures ReadBack(Parse(text), args)
         == Config("static", args.ip, args.netmask, args.gateway, args.dns1,
                   if args.dns2 != "" then args.dns2 else LastValue(Trimmed(Parse(text)), "DNS2"))
  {
    hide Print, Trimmed, HasKey, LastValue, LastMask, Rewrite, Add, PrefixLast, Contains, Carried, Clear, Parse;
    hide ReadBack, AllClear;
    var c := Parse(text);
    ParsedIsPlain(text);
    ClearIsAligned(c, args);
    ReadBackFields(c, args);
    OnlyOwnKey(c, args);
  }

  predicate DottedDigits(v: string) {
    forall i :: 0 <= i < |v| ==> IsDigit(v[i]) || v[i] == '.'
  }

  /** Addresses written in digits and dots never contain a name and fit on a line. */
  lemma DottedDigitsClear(v: string)
    requires DottedDigits(v)
    ensures ClearOf(v) && Carried(v)
  {
    LacksLetter(v, "IPADDR", 0);
    LacksLetter(v, "NETMASK", 0);
    LacksLetter(v, "GATEWAY", 0);
    LacksLetter(v, "DNS1", 0);
    LacksLetter(v, "DNS2", 0);
    LacksLetter(v, "BOOTPROTO", 0);
  }

  /** The ordinary case: an interface that so far asked for its address, and addresses in digits and dots. */
  lemma DynamicFileIsReadBack(args: Args)
    requires DottedDigits(args.ip) && DottedDigits(args.netmask) && DottedDigits(args.gateway)
    requires DottedDigits(args.dns1) && DottedDigits(args.dns2)
    ensures ReadBack(Parse(Print([Entry("BOOTPROTO", "dhcp")])), args)
         == Config("static", args.ip, args.netmask, args.gateway, args.dns1, args.dns2)
  {
    var es := [Entry("BOOTPROTO", "dhcp")];
    DottedDigitsClear(args.ip);
    DottedDigitsClear(args.netmask);
    DottedDigitsClear(args.gateway);
    DottedDigitsClear(args.dns1);
    DottedDigitsClear(args.dns2);
    hide Print, Parse, ReadBack, Contains, Carried, ClearOf, DottedDigits, StaticValue;
    DynamicEntry(es);
    ParsePrintIff(es);
    StaticIsReadBack(Print(es), args);
  }

  lemma DynamicEntry(es: seq<Entry>)
    requires es == [Entry("BOOTPROTO", "dhcp")]
    ensures AllPlain(es) && HasKey(es, "BOOTPROTO") && !HasKey(es, "NETMASK") && LastValue(Trimmed(es), "DNS2") == ""
    ensures forall w :: Name(w) ==> Clear(es, w)
  {
    assert es[0].key == "BOOTPROTO";
    forall w | Name(w)
      ensures Clear(es, w)
    {
      if w != "BOOTPROTO" { NamesApart(w, "BOOTPROTO"); }
      LacksLetter("dhcp", w, 0);
    }
    NameStays("BOOTPROTO");
    assert Trimmed(es)[0].key == "BOOTPROTO" && |"DNS2"| == 4;
    assert Trimmed(es)[..0] == [];
  }

  /** The address is read back exactly when the old file has an IPADDR key, or its rewritten text does not contain
      "IPADDR" anywhere else, or the address is empty. */
  lemma AddressReadBackIff(text: string, args: Args)
    requires AllCarried(args) && Aligned(Parse(text))
    ensures ReadBack(Parse(text), args).ipAddr == args.ip
       <==> HasKey(Parse(text), "IPADDR") || !Contains(Print(Rewrite(Parse(text), args)), "IPADDR") || args.ip == ""
  {
    ParsedIsPlain(text);
    ReadBackFields(Parse(text), args);
  }

  /** A configuration whose interface is named after the key: no address is written, and none is read back. */
  lemma AddressNotWritten(args: Args)
    requires AllCarried(args) && args.ip != ""
    ensures ReadBack(Parse(Print([Entry("NAME", "IPADDR")])), args).ipAddr != args.ip
  {
    var es := [Entry("NAME", "IPADDR")];
    ParsePrintIff(es);
    NameHoldsKey(es, args);
    hide Print, Parse, ReadBack, Contains, Rewrite, Carried;
    AddressReadBackIff(Print(es), args);
  }

  lemma NameHoldsKey(es: seq<Entry>, args: Args)
    requires es == [Entry("NAME", "IPADDR")]
    ensures Rewrite(es, args) == es && AllPlain(es) && Aligned(es) && !HasKey(es, "IPADDR")
    ensures Contains(Print(es), "IPADDR")
  {
    NameIsNoKey(es, args);
    hide AllPlain, Aligned, HasKey, Rewrite;
    assert At("IPADDR", "IPADDR", 0);
    ContainsInside("NAME=", "IPADDR", "\n", "IPADDR");
    assert Print(es) == "" + (Line(es[0]) + ['\n']) == "NAME=" + "IPADDR" + "\n";
  }

  lemma NameIsNoKey(es: seq<Entry>, args: Args)
    requires es == [Entry("NAME", "IPADDR")]
    ensures Rewrite(es, args) == es && AllPlain(es) && Aligned(es) && !HasKey(es, "IPADDR")
  {
    assert "NAME"[0] == 'N';
    assert Rewrite(es, args) == es;
  }

  /** The netmask is read back exactly when no NETMASK is found anywhere in the text before it is considered, or an
      old PREFIX after the last NETMASK happens to stand for it, or there is no such PREFIX and a NETMASK key. */
  lemma MaskReadBackIff(text: string, args: Args)
    requires AllCarried(args) && Aligned(Parse(text))
    ensures ReadBack(Parse(text), args).netMask == args.netmask
       <==> || !Contains(Print(WithIp(Parse(text), args)), "NETMASK")
            || if PrefixLast(Parse(text)) then LastMask(Trimmed(Parse(text))) == args.netmask
               else HasKey(Parse(text), "NETMASK") || args.netmask == ""
  {
    ParsedIsPlain(text);
    ReadBackFields(Parse(text), args);
  }

  /** A file that gives its netmask twice, as NETMASK and then as PREFIX: only the first is rewritten, and the second
      is what is read back, whatever netmask was to be set. */
  lemma PrefixWins(mask: string, n: int, args: Args)
    requires AllCarried(args) && DottedDigits(mask) && MIN_INT <= n <= MAX_INT
    ensures ReadBack(Parse(Print(TwoMasks(mask, n))), args).netMask == Dotted(MaskOctets(n))
    ensures IsMask(Dotted(MaskOctets(n)), if n < 0 then 0 else if n > 32 then 32 else n)
  {
    var es := TwoMasks(mask, n);
    MaskText(n);
    hide IsMask, Dotted, MaskOctets;
    TwoMasksArePlain(mask, n);
    ParsePrintIff(es);
    TwoMasksEnd(mask, n);
    KeyIsContained(es, args);
    hide Print, Parse, Contains, Rewrite, Carried, Trimmed, LastMask, PrefixLast, HasKey, Aligned, ReadBack, TwoMasks;
    ReadBackFields(es, args);
  }

  function TwoMasks(mask: string, n: int): seq<Entry> {
    [Entry("NETMASK", mask), Entry("PREFIX", Itoa(n))]
  }

  lemma TwoMasksArePlain(mask: string, n: int)
    requires DottedDigits(mask)
    ensures AllPlain(TwoMasks(mask, n)) && Aligned(TwoMasks(mask, n))
  {
    hide Itoa;
    assert TrimLeft("NETMASK") == "NETMASK" && TrimLeft("PREFIX") == "PREFIX";
    hide TrimLeft;
    assert Plain(Entry("NETMASK", mask)) && Plain(Entry("PREFIX", Itoa(n)));
  }

  lemma TwoMasksEnd(mask: string, n: int)
    requires MIN_INT <= n <= MAX_INT
    ensures PrefixLast(TwoMasks(mask, n)) && LastMask(Trimmed(TwoMasks(mask, n))) == Dotted(MaskOctets(n))
  {
    NumberStays(n);
    AtoiItoa(n);
    hide Itoa, Atoi, MaskOctets, Dotted, TrimRight;
    assert Trimmed(TwoMasks(mask, n))[1] == Entry("PREFIX", Itoa(n)) by { assert TrimLeft("PREFIX") == "PREFIX"; }
  }

  lemma NumberStays(n: int)
    ensures TrimRight(Itoa(n)) == Itoa(n)
  {
  }

  lemma KeyIsContained(es: seq<Entry>, args: Args)
    requires HasKey(es, "NETMASK")
    ensures Contains(Print(WithIp(es, args)), "NETMASK")
  {
    var r, w := Rewrite(es, args), WithIp(es, args);
    KeysRewritten(es, args, "NETMASK");
    hide Print, Rewrite;
    var i :| 0 <= i < |r| && r[i].key == "NETMASK";
    assert At("NETMASK", "NETMASK", 0);
    assert w[i] == r[i];
    ContainsPrint(w, "NETMASK");
  }
}
