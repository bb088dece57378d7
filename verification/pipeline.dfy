/** How the pieces fit together: what the host console accepts against
    what `handle_host_data` then does with the same text, command texts
    rendered from values and read back by the device, and the published
    configuration driving directed-mode selection. */
module Pipeline {
  import opened Machine
  import opened CText
  import opened CTextFormat
  import opened Generator
  import opened Controller
  import opened HostValidate
  import opened Commands

  /** A 'c' command that the host accepts keeps every class of the device's
      tables within the validator's bounds, and stores the weight and (when
      it is not 0) the sizes the text names. */
  lemma AcceptedPktControlKeepsTablesValid(e: Engine, buf: seq<char>)
    requires ValidTables(e.tables)
    requires At(buf, 0) == CmdPktControl && ValidatePktCtrlSetting(buf)
    ensures var e' := HandleHostData(e, buf);
            var f := PktCtrlFieldsOf(buf);
            var k := TypeLetter(f.kind).value;
            && ValidTables(e'.tables)
            && GetPacketControl(e'.tables.directed, k, e.writeIndex).weight == f.weight
            && (f.weight != 0 ==>
                  GetPacketControl(e'.tables.directed, k, e.writeIndex).sizeMin == f.sizeMin
                  && GetPacketControl(e'.tables.directed, k, e.writeIndex).sizeMax == f.sizeMax)
  {
    var f := PktCtrlFieldsOf(buf);
    var k := TypeLetter(f.kind).value;
    var d := e.tables.directed;
    var prev := GetPacketControl(d, k, e.writeIndex);
    var c := EditClass(prev, f.weight, f.sizeMin, f.sizeMax);
    assert HandleHostData(e, buf) == PktControl(e, buf);
    assert PktControl(e, buf) == WithDirected(e, SetPacketControl(d, k, e.writeIndex, c));
    assert ValidClass(prev, k) by {
      assert ValidSlot(d.Get(e.writeIndex));
    }
    assert ValidClass(c, k);
    SetPacketControlKeepsValid(e.tables, k, e.writeIndex, c);
  }

  /** Tables whose classes are those of valid tables are valid: validity
      is a property of the six classes alone. */
  lemma SameClassesKeepValid(t: Tables, t': Tables)
    requires ValidTables(t)
    requires forall k: PktType, i: Slot :: GetPacketControl(t'.directed, k, i) == GetPacketControl(t.directed, k, i)
    ensures ValidTables(t')
  {
    forall i: Slot
      ensures ValidSlot(t'.directed.Get(i))
    {
      assert ValidSlot(t.directed.Get(i));
      assert t'.directed.Get(i).unicast == GetPacketControl(t'.directed, Unicast, i);
      assert t'.directed.Get(i).multicast == GetPacketControl(t'.directed, Multicast, i);
      assert t'.directed.Get(i).broadcast == GetPacketControl(t'.directed, Broadcast, i);
    }
    assert ValidSlot(t'.directed.Get(0)) && ValidSlot(t'.directed.Get(1));
  }

  /** A command the host lets through: every 'c' has passed
      `validate_pkt_ctrl_setting`. */
  predicate HostSends(buf: seq<char>) {
    At(buf, 0) == CmdPktControl ==> ValidatePktCtrlSetting(buf)
  }

  /** 'r' changes only a rate factor, so no class changes. */
  lemma LineRateKeepsClasses(e: Engine, buf: seq<char>)
    ensures var d, d' := e.tables.directed, LineRate(e, buf).tables.directed;
            forall k: PktType, i: Slot :: GetPacketControl(d', k, i) == GetPacketControl(d, k, i)
  {
    var d, d' := e.tables.directed, LineRate(e, buf).tables.directed;
    forall k: PktType, i: Slot
      ensures GetPacketControl(d', k, i) == GetPacketControl(d, k, i)
    {
      if i != e.writeIndex {
        assert i == Other(e.writeIndex);
      }
    }
  }

  /** Every command the host lets through keeps the device's classes within
      the host's bounds: 'c' stores only validated classes, 'r' and 'a'
      touch no class, 'e' copies a valid slot, and the rest leave the
      tables' classes alone. */
  lemma HandleHostDataKeepsValid(e: Engine, buf: seq<char>)
    requires ValidTables(e.tables) && HostSends(buf)
    ensures ValidTables(HandleHostData(e, buf).tables)
  {
    var cmd := At(buf, 0);
    var e' := HandleHostData(e, buf);
    if cmd == CmdPktControl {
      AcceptedPktControlKeepsTablesValid(e, buf);
    } else if cmd == CmdLineRate {
      assert e' == LineRate(e, buf);
      LineRateKeepsClasses(e, buf);
      SameClassesKeepValid(e.tables, e'.tables);
    } else if cmd == CmdSetMacAddress {
      assert e' == SetMacAddress(e, buf);
      SameClassesKeepValid(e.tables, e'.tables);
    } else if cmd == CmdApplyCfg {
      assert e' == ApplyCfg(e);
      assert ValidSlot(WriteSlot(e));
    } else if cmd == CmdSwapCfg {
      assert e'.tables.directed == e.tables.directed;
    }
  }

  /** Every command of the run is one the host lets through. */
  predicate HostSendsAll(cmds: seq<seq<char>>) {
    forall j :: 0 <= j < |cmds| ==> HostSends(cmds[j])
  }

  lemma {:induction false} RunKeepsTablesValid(e: Engine, cmds: seq<seq<char>>)
    requires ValidTables(e.tables) && HostSendsAll(cmds)
    ensures ValidTables(Run(e, cmds).tables)
    decreases |cmds|
  {
    if cmds != [] {
      HandleHostDataKeepsValid(e, cmds[0]);
      assert HostSendsAll(cmds[1..]) by {
        forall j | 0 <= j < |cmds[1..]|
          ensures HostSends(cmds[1..][j])
        {
          assert cmds[1..][j] == cmds[j + 1];
        }
      }
      RunKeepsTablesValid(HandleHostData(e, cmds[0]), cmds[1..]);
    }
  }

  /** Every configuration the device reaches from start-up through commands
      the host lets through has valid tables, so `DirectedChoiceIsValid`
      applies to it. */
  lemma ReachableTablesValid(mode: GeneratorMode, ctrl: StateId, rateFactor: U32, cmds: seq<seq<char>>)
    requires HostSendsAll(cmds)
    ensures ValidTables(Run(InitialEngine(mode, ctrl, rateFactor), cmds).tables)
  {
    InitialTablesValid();
    RunKeepsTablesValid(InitialEngine(mode, ctrl, rateFactor), cmds);
  }

  /** The mode a letter names. */
  function ModeNamed(c: char): (m: Option<GeneratorMode>)
    ensures m.Some? <==> c in "srd"
  {
    if c == 's' then Some(Silent)
    else if c == 'r' then Some(Random)
    else if c == 'd' then Some(Directed)
    else None
  }

  /** The bytes of a typed line that `xscope_ep_request_upload(sockfd, n,
      buffer)` delivers: the first `n`, or the whole line when it is shorter,
      the device then reading the line's terminator. */
  function Upload(line: seq<char>, n: nat): (u: seq<char>)
    ensures |u| <= n && u <= line
    ensures forall j: nat :: j < n ==> At(u, j) == At(line, j)
  {
    line[..if n < |line| then n else |line|]
  }

  /** The host uploads three bytes of an 'm' line. */
  const ModeUploadBytes: nat := 3

  /** A scan that stops inside a region where two texts agree stops at the
      same place in both. */
  lemma {:induction false} ScanWhileAgrees(s: seq<char>, s': seq<char>, i: nat, n: nat, p: char -> bool)
    requires !p(NUL)
    requires forall j :: i <= j < n ==> At(s', j) == At(s, j)
    requires ScanWhile(s, i, p) < n
    ensures ScanWhile(s', i, p) == ScanWhile(s, i, p)
    decreases n - i
  {
    if p(At(s, i)) {
      ScanWhileAgrees(s, s', i + 1, n, p);
    }
  }

  /** The host accepts an 'm' line exactly when it names a mode. The device
      receives only the first three bytes: when the letter lies within them
      it sets the named mode (or nothing, for a line the host rejects), and
      when white space pushes the letter past them it changes nothing. */
  lemma ModeValidationAgrees(e: Engine, buf: seq<char>)
    requires At(buf, 0) == CmdSetGeneratorMode
    ensures var t := GetNextChar(buf, 1);
            var m := ModeNamed(t.value);
            var dev := HandleHostData(e, Upload(buf, ModeUploadBytes));
            && (ValidateMode(buf) <==> m.Some?)
            && (t.next <= ModeUploadBytes ==> dev == (if m.Some? then e.(mode := m.value) else e))
            && (t.next > ModeUploadBytes ==> dev == e)
  {
    var u := Upload(buf, ModeUploadBytes);
    var k := ScanWhile(buf, 1, IsSpace);
    assert At(u, 0) == CmdSetGeneratorMode;
    if k < ModeUploadBytes {
      ScanWhileAgrees(buf, u, 1, ModeUploadBytes, IsSpace);
      assert GetNextChar(u, 1) == GetNextChar(buf, 1);
    } else {
      assert IsSpace(At(buf, 1)) && IsSpace(At(buf, 2));
      assert u == buf[..3];
      assert ScanWhile(u, 3, IsSpace) == 3;
      assert ScanWhile(u, 1, IsSpace) == 3;
      assert GetNextChar(u, 1).value == NUL;
    }
  }

  /** The line "m  d" is accepted, but the three bytes the device receives
      hold no letter, so the mode stays as it was. */
  lemma ModeLetterCutOff(e: Engine)
    ensures ValidateMode("m  d")
    ensures GetNextChar("m  d", 1).value == 'd'
    ensures HandleHostData(e, Upload("m  d", ModeUploadBytes)) == e
  {
    var s := "m  d";
    assert ScanWhile(s, 4, IsSpace) == 4;
    assert ScanWhile(s, 3, IsSpace) == 3;
    assert ScanWhile(s, 1, IsSpace) == 3;
    var u := Upload(s, ModeUploadBytes);
    assert u == "m  ";
    assert ScanWhile(u, 3, IsSpace) == 3;
    assert ScanWhile(u, 1, IsSpace) == 3;
  }

  /** Uploaded through its terminator, as the host does for 'r', an 'm' line
      sets exactly the mode the host accepted. */
  lemma ModeWholeLineAgrees(e: Engine, buf: seq<char>)
    requires At(buf, 0) == CmdSetGeneratorMode
    ensures var m := ModeNamed(GetNextChar(buf, 1).value);
            && (ValidateMode(buf) <==> m.Some?)
            && HandleHostData(e, Upload(buf, |buf| + 1)) == (if m.Some? then e.(mode := m.value) else e)
  {
    assert Upload(buf, |buf| + 1) == buf;
  }

  function KindLetter(k: PktType): (c: char)
    ensures TypeLetter(c) == Some(k)
  {
    match k
    case Unicast => 'u'
    case Multicast => 'm'
    case Broadcast => 'b'
  }

  /** A 'c' command with the given type letter and field texts:
      "c <type> <weight> <min> <max>". */
  function FieldsText(letter: char, dw: seq<char>, dlo: seq<char>, dhi: seq<char>): seq<char> {
    "c " + [letter] + " " + dw + " " + dlo + " " + dhi
  }

  /** `convert_atoi_substr` at the space before a decimal numeral that is
      followed by a space or the end of the text. */
  lemma ReadDecimalBetween(pre: seq<char>, n: nat, post: seq<char>)
    requires n < 0x8000_0000
    requires post == [] || post[0] == ' '
    ensures var s := pre + [' '] + Decimal(n) + post;
            ConvertAtoiSubstr(s, |pre|) == Scanned(n, |pre| + 1 + |Decimal(n)|)
  {
    var s := pre + [' '] + Decimal(n) + post;
    var d := Decimal(n);
    assert s[|pre|] == ' ';
    assert s[|pre| + 1..|pre| + 1 + |d|] == d;
    assert At(s, |pre| + 1 + |d|) == if post == [] then NUL else ' ';
    ReadDecimal(s, |pre|, n);
  }

  /** Concatenation regrouped around its fifth part. */
  lemma Regroup(a: seq<char>, b: seq<char>, c: seq<char>, d: seq<char>, e: seq<char>, f: seq<char>, g: seq<char>)
    ensures a + b + c + d + e + f + g == (a + b + c) + d + e + (f + g)
  {
  }

  /** `ReadDecimalBetween` for a text already known to have that shape. */
  lemma ReadNumeralIn(s: seq<char>, i: nat, pre: seq<char>, n: nat, post: seq<char>)
    requires n < 0x8000_0000
    requires post == [] || post[0] == ' '
    requires s == pre + [' '] + Decimal(n) + post && i == |pre|
    ensures ConvertAtoiSubstr(s, i) == Scanned(n, i + 1 + |Decimal(n)|)
  {
    ReadDecimalBetween(pre, n, post);
  }

  /** The weight field of a 'c' command, whatever the other two fields hold. */
  lemma ReadWeightField(letter: char, w: nat, dw: seq<char>, dlo: seq<char>, dhi: seq<char>)
    requires w < 0x8000_0000 && dw == Decimal(w)
    ensures ConvertAtoiSubstr(FieldsText(letter, dw, dlo, dhi), 3) == Scanned(w, 4 + |dw|)
  {
    var s := FieldsText(letter, dw, dlo, dhi);
    var pre := "c " + [letter];
    assert s == pre + [' '] + dw + (" " + dlo + " " + dhi) by {
      Regroup(pre, " ", dw, " ", dlo, " ", dhi);
    }
    ReadNumeralIn(s, 3, pre, w, " " + dlo + " " + dhi);
  }

  /** The minimum-size field of a 'c' command. */
  lemma ReadMinField(letter: char, dw: seq<char>, lo: nat, dlo: seq<char>, dhi: seq<char>)
    requires lo < 0x8000_0000 && dlo == Decimal(lo)
    ensures ConvertAtoiSubstr(FieldsText(letter, dw, dlo, dhi), 4 + |dw|) == Scanned(lo, 5 + |dw| + |dlo|)
  {
    var s := FieldsText(letter, dw, dlo, dhi);
    var pre := "c " + [letter] + " " + dw;
    assert s == pre + [' '] + dlo + (" " + dhi);
    ReadNumeralIn(s, 4 + |dw|, pre, lo, " " + dhi);
  }

  /** The maximum-size field of a 'c' command, which ends the text. */
  lemma ReadMaxField(letter: char, dw: seq<char>, dlo: seq<char>, hi: nat, dhi: seq<char>)
    requires hi < 0x8000_0000 && dhi == Decimal(hi)
    ensures ConvertAtoiSubstr(FieldsText(letter, dw, dlo, dhi), 5 + |dw| + |dlo|)
            == Scanned(hi, 6 + |dw| + |dlo| + |dhi|)
  {
    var s := FieldsText(letter, dw, dlo, dhi);
    var pre := "c " + [letter] + " " + dw + " " + dlo;
    assert s == pre + [' '] + dhi + [];
    ReadNumeralIn(s, 5 + |dw| + |dlo|, pre, hi, []);
  }

  /** The type letter of a 'c' command. */
  lemma FieldsTextLetter(letter: char, dw: seq<char>, dlo: seq<char>, dhi: seq<char>)
    requires letter != NUL && !IsSpace(letter)
    ensures GetNextChar(FieldsText(letter, dw, dlo, dhi), 1) == Scanned(letter, 3)
  {
    CommandLetter(FieldsText(letter, dw, dlo, dhi), letter);
  }

  /** What `get_next_char` and the three `convert_atoi_substr` calls of the
      'c' handler return on `s`, with the cursor positions between them. */
  predicate ReadsAs(s: seq<char>, letter: char, w: nat, lo: nat, hi: nat, a: nat, b: nat, c: nat) {
    && w < 0x8000_0000 && lo < 0x8000_0000 && hi < 0x8000_0000
    && GetNextChar(s, 1) == Scanned(letter, 3)
    && ConvertAtoiSubstr(s, 3) == Scanned(w, a)
    && ConvertAtoiSubstr(s, a) == Scanned(lo, b)
    && ConvertAtoiSubstr(s, b) == Scanned(hi, c)
  }

  /** `PktCtrlFieldsOf` collects what the four reads return. */
  lemma FieldsOfReads(s: seq<char>, letter: char, w: nat, lo: nat, hi: nat, a: nat, b: nat, c: nat)
    requires ReadsAs(s, letter, w, lo, hi, a, b, c)
    ensures PktCtrlFieldsOf(s) == PktCtrlFields(letter, w, lo, hi)
  {
  }

  /** The text the host renders for a 'c' command, with its numbers written
      in decimal, reads back as the type letter and the numbers it was made
      from. */
  lemma FieldsTextReads(letter: char, w: nat, lo: nat, hi: nat, dw: seq<char>, dlo: seq<char>, dhi: seq<char>)
    requires letter != NUL && !IsSpace(letter)
    requires w < 0x8000_0000 && lo < 0x8000_0000 && hi < 0x8000_0000
    requires dw == Decimal(w) && dlo == Decimal(lo) && dhi == Decimal(hi)
    ensures ReadsAs(FieldsText(letter, dw, dlo, dhi), letter, w, lo, hi,
                    4 + |dw|, 5 + |dw| + |dlo|, 6 + |dw| + |dlo| + |dhi|)
  {
    FieldsTextLetter(letter, dw, dlo, dhi);
    ReadWeightField(letter, w, dw, dlo, dhi);
    ReadMinField(letter, dw, lo, dlo, dhi);
    ReadMaxField(letter, dw, dlo, hi, dhi);
  }

  /** End to end for 'c': on a command whose fields read as a type letter
      and three numbers (as every rendered command does), the host accepts it
      exactly when the numbers are in range, and the device stores them in
      that type's class of the write slot. */
  lemma PktControlRoundTrip(e: Engine, s: seq<char>, k: PktType, w: nat, lo: nat, hi: nat, a: nat, b: nat, c: nat)
    requires ReadsAs(s, KindLetter(k), w, lo, hi, a, b, c)
    requires At(s, 0) == CmdPktControl
    ensures ValidatePktCtrlSetting(s) <==> w <= 100 && (w != 0 ==> 60 <= lo <= hi <= 1518)
    ensures GetPacketControl(HandleHostData(e, s).tables.directed, k, e.writeIndex)
            == EditClass(GetPacketControl(e.tables.directed, k, e.writeIndex), w, lo, hi)
  {
    FieldsOfReads(s, KindLetter(k), w, lo, hi, a, b, c);
  }

  /** The text the host sends for a line rate: "r <factor>". */
  function LineRateText(f: nat): seq<char> {
    "r " + Decimal(f)
  }

  /** The device stores the rate factor the host sent into the write slot. */
  lemma LineRateTextStoresFactor(e: Engine, f: nat)
    requires f < 0x8000_0000
    ensures WriteSlot(HandleHostData(e, LineRateText(f))).rateFactor == f
    ensures Valid(e) ==> ReadSlot(HandleHostData(e, LineRateText(f))) == ReadSlot(e)
  {
    var s := LineRateText(f);
    assert s[1] == ' ' && s[2..] == Decimal(f);
    ReadDecimal(s, 1, f);
  }

  /** The text of an 'a' command: "a <type> aa:bb:cc:dd:ee:ff". */
  function MacText(kind: char, m: Mac): seq<char> {
    "a " + [kind] + " " + FormatMac(m)
  }

  /** Every colon of formatted fields, counted. */
  lemma {:induction false} ColonsOfFields(s: seq<char>, p: nat, bs: seq<Byte>)
    requires |bs| >= 1 && p + 3 * |bs| - 1 <= |s|
    requires s[p..p + 3 * |bs| - 1] == FormatFields(bs)
    ensures Colons(s, p, p + 3 * |bs| - 1) == |bs| - 1
    decreases |bs|
  {
    var t := FormatFields(bs);
    assert At(s, p) == t[0] && At(s, p + 1) == t[1];
    assert t[..2] == Hex2(bs[0]);
    NoColons(s, p, p + 2);
    if |bs| > 1 {
      var rest := FormatFields(bs[1..]);
      assert t == Hex2(bs[0]) + [':'] + rest;
      assert At(s, p + 2) == ':';
      assert s[p + 3..p + 3 * |bs| - 1] == rest;
      ColonsOfFields(s, p + 3, bs[1..]);
      ColonsSplit(s, p, p + 3, p + 3 * |bs| - 1);
    }
  }

  /** The address text of a rendered 'a' command runs from position 3 to
      the end, at 21. */
  lemma MacTextExtent(kind: char, m: Mac)
    requires kind == 'u' || kind == 'm'
    ensures MacTextEnd(MacText(kind, m), 3) == 21 && At(MacText(kind, m), 21) == NUL
  {
    var s := MacText(kind, m);
    var t := FormatMac(m);
    assert |s| == 21 && s[4..] == t;
    FormatFieldsShape(m);
    forall j | 3 <= j < 21
      ensures MacChar(At(s, j))
    {
      if j > 3 {
        assert At(s, j) == t[j - 4];
      }
    }
    MacTextEndSkip(s, 3, 21);
  }

  /** A rendered address holds no three alphanumerics in a row. */
  lemma MacTextNoTriple(kind: char, m: Mac)
    requires kind == 'u' || kind == 'm'
    ensures NoTriple(MacText(kind, m), 3, 21)
  {
    var s := MacText(kind, m);
    var t := FormatMac(m);
    assert |s| == 21 && s[4..] == t;
    FormatFieldsShape(m);
    forall k | 3 <= k && k + 2 < 21
      ensures !Triple(s, k)
    {
      if k > 3 {
        var j := k - 4;
        var q := if j % 3 == 2 then j else if (j + 1) % 3 == 2 then j + 1 else j + 2;
        assert t[q] == ':' && At(s, q + 4) == t[q];
      }
    }
  }

  /** A rendered address holds five colons. */
  lemma MacTextColons(kind: char, m: Mac)
    requires kind == 'u' || kind == 'm'
    ensures Colons(MacText(kind, m), 3, 21) == 5
  {
    var s := MacText(kind, m);
    assert s[4..4 + 3 * 6 - 1] == FormatFields(m);
    ColonsOfFields(s, 4, m);
    assert Colons(s, 3, 4) == 0;
    ColonsSplit(s, 3, 4, 21);
  }

  /** The host accepts every rendered 'a' command for the unicast or
      multicast table. */
  lemma MacTextAccepted(kind: char, m: Mac)
    requires kind == 'u' || kind == 'm'
    ensures ValidateSetMacAddress(MacText(kind, m)) == Accepted
  {
    var s := MacText(kind, m);
    CommandLetter(s, kind);
    MacTextExtent(kind, m);
    MacTextNoTriple(kind, m);
    MacTextColons(kind, m);
    ValidateSetMacAddressMeaning(s);
  }

  /** The device reads a rendered 'a' command as its letter and address. */
  lemma MacTextParses(kind: char, m: Mac)
    requires kind == 'u' || kind == 'm'
    ensures GetNextChar(MacText(kind, m), 1) == Scanned(kind, 3)
    ensures ParseMacAddress(MacText(kind, m), 3, ZeroMac) == MacParse(false, m, 6)
  {
    var s := MacText(kind, m);
    CommandLetter(s, kind);
    assert s[4..] == FormatMac(m);
    ParseAfterSpace(s, ZeroMac);
    ParseFormattedFields(s, 4, 0, ZeroMac, m);
    assert Overlay(ZeroMac, 0, m) == m;
  }

  /** The device stores the address of a rendered 'a' command in the write
      slot's table of that kind. */
  lemma MacTextStored(e: Engine, kind: char, m: Mac)
    requires kind == 'u' || kind == 'm'
    ensures var d := e.tables.directed;
            var d' := HandleHostData(e, MacText(kind, m)).tables.directed;
            d' == if kind == 'u' then SetUnicastMac(d, e.writeIndex, m) else SetMulticastMac(d, e.writeIndex, m)
  {
    MacTextParses(kind, m);
    assert At(MacText(kind, m), 0) == CmdSetMacAddress;
    AddressStored(e, MacText(kind, m), kind, m);
  }

  /** Any 'a' command that reads as a letter and a cleanly parsed address
      stores that address in the write slot's table of that kind. */
  lemma AddressStored(e: Engine, s: seq<char>, kind: char, m: Mac)
    requires kind == 'u' || kind == 'm'
    requires At(s, 0) == CmdSetMacAddress
    requires GetNextChar(s, 1) == Scanned(kind, 3)
    requires ParseMacAddress(s, 3, ZeroMac) == MacParse(false, m, 6)
    ensures var d := e.tables.directed;
            var d' := HandleHostData(e, s).tables.directed;
            d' == if kind == 'u' then SetUnicastMac(d, e.writeIndex, m) else SetMulticastMac(d, e.writeIndex, m)
  {
    assert HandleHostData(e, s) == SetMacAddress(e, s);
  }

  /** The space between the type letter and the address is skipped. */
  lemma ParseAfterSpace(s: seq<char>, mac: Mac)
    requires |s| > 4 && s[3] == ' ' && !IsSpace(s[4]) && s[4] != NUL
    ensures ParseMacFrom(s, 3, 0, mac) == ParseMacFrom(s, 4, 0, mac)
  {
    assert ScanWhile(s, 4, IsSpace) == 4;
    assert ScanWhile(s, 3, IsSpace) == 4;
  }

  /** In directed mode, applying the configuration makes the generator
      choose among exactly the classes of the slot that was being edited. */
  lemma ApplyDrivesDirectedChoice(e: Engine)
    requires Valid(e) && e.mode == Directed
    ensures var e' := HandleHostData(e, [CmdApplyCfg]);
            var w := WriteSlot(e);
            && e'.ctrl == DirectedNode(e'.tables.readIndex)
            && Alternatives(e'.tables, e'.ctrl) == [w.unicast, w.multicast, w.broadcast]
            && e'.rateFactor == w.rateFactor
  {
    var e' := HandleHostData(e, [CmdApplyCfg]);
    DirectedAlternatives(e'.tables, e'.tables.readIndex);
  }
}
