/** Text renderings that the scanners of `CText` invert: decimal numerals
    (read back by `convert_atoi_substr`) and colon-separated MAC addresses
    (read back by `parse_mac_address`), with the round-trip lemmas. */
module CTextFormat {
  import opened Machine
  import opened CText

  function DecimalDigit(d: nat): (c: char)
    requires d < 10
    ensures IsDigit(c) && HexDigitValue(c) == d
  {
    ('0' as int + d) as char
  }

  /** The decimal numeral of `n`, without sign or leading zeros. */
  function Decimal(n: nat): (t: seq<char>)
    ensures |t| >= 1
    ensures forall i :: 0 <= i < |t| ==> IsDigit(t[i])
  {
    if n < 10 then [DecimalDigit(n)] else Decimal(n / 10) + [DecimalDigit(n % 10)]
  }

  function HexChar(d: nat): (c: char)
    requires d < 16
    ensures IsHexDigit(c) && HexDigitValue(c) == d
    ensures c != 'x' && c != 'X' && c != ':' && !IsSpace(c)
  {
    if d < 10 then DecimalDigit(d) else ('a' as int + d - 10) as char
  }

  /** Two hex digits, most significant first. */
  function Hex2(b: Byte): (t: seq<char>)
    ensures |t| == 2
  {
    [HexChar(b / 16), HexChar(b % 16)]
  }

  /** The bytes `bs` as two-digit hex fields joined by ':'. */
  function FormatFields(bs: seq<Byte>): (t: seq<char>)
    requires |bs| >= 1
    ensures |t| == 3 * |bs| - 1
  {
    if |bs| == 1 then Hex2(bs[0]) else Hex2(bs[0]) + [':'] + FormatFields(bs[1..])
  }

  /** The text `aa:bb:cc:dd:ee:ff` of a MAC address. */
  function FormatMac(m: Mac): seq<char> {
    FormatFields(m)
  }

  /** `mac` with the bytes `bs` stored from position `index` on. */
  function Overlay(mac: Mac, index: nat, bs: seq<Byte>): (r: Mac)
    requires index + |bs| <= 6
    ensures forall k :: 0 <= k < |bs| ==> r[index + k] == bs[k]
    ensures forall k :: 0 <= k < 6 && (k < index || index + |bs| <= k) ==> r[k] == mac[k]
  {
    mac[..index] + bs + mac[index + |bs|..]
  }

  /** A scan whose stopping point is known stops there. */
  lemma ScanWhileStopsAt(s: seq<char>, i: nat, p: char -> bool, k: nat)
    requires !p(NUL) && i <= k
    requires forall j :: i <= j < k ==> p(At(s, j))
    requires !p(At(s, k))
    ensures ScanWhile(s, i, p) == k
  {
  }

  /** The digits of `Decimal(n)`, wherever they sit in a text, have value `n`. */
  lemma {:induction false} DecimalNumeral(s: seq<char>, p: nat, n: nat)
    requires p + |Decimal(n)| <= |s| && s[p..p + |Decimal(n)|] == Decimal(n)
    ensures forall t :: p <= t < p + |Decimal(n)| ==> IsDigit(At(s, t))
    ensures NumeralValue(s, p, p + |Decimal(n)|, 10) == n
    decreases n
  {
    var d := Decimal(n);
    forall t | p <= t < p + |d|
      ensures IsDigit(At(s, t))
    {
      assert At(s, t) == d[t - p];
    }
    if n < 10 {
      assert At(s, p) == d[0] == DecimalDigit(n);
    } else {
      var d' := Decimal(n / 10);
      assert d == d' + [DecimalDigit(n % 10)];
      assert s[p..p + |d'|] == d' by {
        assert s[p..p + |d'|] == s[p..p + |d|][..|d'|];
      }
      DecimalNumeral(s, p, n / 10);
      assert At(s, p + |d| - 1) == d[|d| - 1] == DecimalDigit(n % 10);
    }
  }

  /** `convert_atoi_substr` reads back a decimal numeral written after one
      space and followed by white space or the end of the text. */
  lemma ReadDecimal(s: seq<char>, i: nat, n: nat)
    requires n < 0x8000_0000
    requires i + 1 + |Decimal(n)| <= |s|
    requires s[i] == ' ' && s[i + 1..i + 1 + |Decimal(n)|] == Decimal(n)
    requires !InToken(At(s, i + 1 + |Decimal(n)|))
    ensures ConvertAtoiSubstr(s, i) == Scanned(n, i + 1 + |Decimal(n)|)
  {
    var d := Decimal(n);
    var e := i + 1 + |d|;
    DecimalNumeral(s, i + 1, n);
    assert At(s, i + 1) == d[0];
    ScanWhileStopsAt(s, i, IsSpace, i + 1);
    ScanWhileStopsAt(s, i + 1, IsDigit, e);
    ScanWhileStopsAt(s, i + 1, InToken, e);
  }

  /** `strtol(…, 16)` reads back a two-digit hex field that no further hex
      digit follows. */
  lemma ReadHex2(s: seq<char>, pos: nat, b: Byte)
    requires pos + 2 <= |s| && s[pos..pos + 2] == Hex2(b)
    requires !IsHexDigit(At(s, pos + 2))
    ensures Strtol16(s, pos) == Scanned(b, pos + 2)
  {
    assert At(s, pos) == HexChar(b / 16);
    assert At(s, pos + 1) == HexChar(b % 16);
    ScanWhileStopsAt(s, pos, IsSpace, pos);
    assert HexDigitsStart(s, pos) == pos;
    ScanWhileStopsAt(s, pos, IsHexDigit, pos + 2);
    assert NumeralValue(s, pos, pos + 1, 16) == b / 16;
    assert NumeralValue(s, pos, pos + 2, 16) == (b / 16) * 16 + b % 16;
  }

  /** One turn of the `parse_mac_address` loop at a field that `strtol`
      reads as `b`, with no white space around it. */
  lemma ParseFieldStep(s: seq<char>, pos: nat, index: nat, mac: Mac, b: Byte)
    requires index < 6 && At(s, pos) != NUL
    requires ScanWhile(s, pos, IsSpace) == pos && Strtol16(s, pos) == Scanned(b, pos + 2)
    requires ScanWhile(s, pos + 2, IsSpace) == pos + 2
    ensures At(s, pos + 2) == NUL ==> ParseMacFrom(s, pos, index, mac) == MacParse(false, mac[index := b], index + 1)
    ensures At(s, pos + 2) == ':' ==> ParseMacFrom(s, pos, index, mac) == ParseMacFrom(s, pos + 3, index + 1, mac[index := b])
  {
  }

  /** One turn of the `parse_mac_address` loop over a formatted field: the
      byte is stored and the loop goes on after the ':' or stops at the end. */
  lemma ParseOneFormattedField(s: seq<char>, pos: nat, index: nat, mac: Mac, b: Byte)
    requires index < 6
    requires pos + 2 <= |s| && s[pos..pos + 2] == Hex2(b)
    requires pos + 2 == |s| || s[pos + 2] == ':'
    ensures pos + 2 == |s| ==> ParseMacFrom(s, pos, index, mac) == MacParse(false, mac[index := b], index + 1)
    ensures pos + 2 < |s| ==> ParseMacFrom(s, pos, index, mac) == ParseMacFrom(s, pos + 3, index + 1, mac[index := b])
  {
    assert At(s, pos) != NUL by {
      assert At(s, pos) == HexChar(b / 16);
    }
    assert Strtol16(s, pos) == Scanned(b, pos + 2) by {
      ReadHex2(s, pos, b);
    }
    assert ScanWhile(s, pos, IsSpace) == pos by {
      assert At(s, pos) == HexChar(b / 16);
      ScanWhileStopsAt(s, pos, IsSpace, pos);
    }
    assert ScanWhile(s, pos + 2, IsSpace) == pos + 2 by {
      ScanWhileStopsAt(s, pos + 2, IsSpace, pos + 2);
    }
    ParseFieldStep(s, pos, index, mac, b);
  }

  lemma OverlayStep(mac: Mac, index: nat, bs: seq<Byte>)
    requires 1 <= |bs| && index + |bs| <= 6
    ensures Overlay(mac[index := bs[0]], index + 1, bs[1..]) == Overlay(mac, index, bs)
  {
    var a := Overlay(mac[index := bs[0]], index + 1, bs[1..]);
    var b := Overlay(mac, index, bs);
    forall k | 0 <= k < 6
      ensures a[k] == b[k]
    {
      if index < k < index + |bs| {
        assert a[index + 1 + (k - index - 1)] == bs[1..][k - index - 1];
      }
    }
  }

  /** `parse_mac_address`, entered at field `index`, reads back the formatted
      fields `bs` and stores them from `index` on. */
  lemma {:induction false} ParseFormattedFields(s: seq<char>, pos: nat, index: nat, mac: Mac, bs: seq<Byte>)
    requires 1 <= |bs| && index + |bs| <= 6
    requires pos <= |s| && s[pos..] == FormatFields(bs)
    ensures ParseMacFrom(s, pos, index, mac) == MacParse(false, Overlay(mac, index, bs), index + |bs|)
    decreases |bs|
  {
    var t := FormatFields(bs);
    assert s[pos..pos + 2] == Hex2(bs[0]) by {
      assert s[pos..pos + 2] == t[..2];
    }
    if |bs| == 1 {
      ParseOneFormattedField(s, pos, index, mac, bs[0]);
      assert mac[index := bs[0]] == Overlay(mac, index, bs);
    } else {
      var mac' := mac[index := bs[0]];
      assert ParseMacFrom(s, pos, index, mac) == ParseMacFrom(s, pos + 3, index + 1, mac') by {
        assert s[pos + 2] == t[2] == ':';
        ParseOneFormattedField(s, pos, index, mac, bs[0]);
      }
      assert s[pos + 3..] == FormatFields(bs[1..]) by {
        assert s[pos + 3..] == t[3..];
      }
      ParseFormattedFields(s, pos + 3, index + 1, mac', bs[1..]);
      OverlayStep(mac, index, bs);
    }
  }

  /** Round trip: `parse_mac_address` on `FormatMac(m)` succeeds and yields
      `m`, whatever the array held before. */
  lemma ParseFormattedMac(m: Mac, prior: Mac)
    ensures ParseMacAddress(FormatMac(m), 0, prior) == MacParse(false, m, 6)
  {
    var s := FormatMac(m);
    assert s[0..] == s;
    ParseFormattedFields(s, 0, 0, prior, m);
    assert Overlay(prior, 0, m) == m;
  }

  /** A field followed by a separator other than ':' is rejected: the
      address "00-11-22-33-44-55" stores its first byte and reports an
      error. */
  lemma DashSeparatedMacRejected(prior: Mac)
    ensures ParseMacAddress("00-11-22-33-44-55", 0, prior) == MacParse(true, prior[0 := 0], 1)
  {
    var s := "00-11-22-33-44-55";
    assert s[0..2] == Hex2(0);
    ReadHex2(s, 0, 0);
    assert ScanWhile(s, 0, IsSpace) == 0;
    assert ScanWhile(s, 2, IsSpace) == 2;
  }

  /** A text holding fewer than six fields is accepted too: the first `n`
      bytes are stored and the rest keep their prior values. */
  lemma ParseShortMac(bs: seq<Byte>, prior: Mac)
    requires 1 <= |bs| <= 6
    ensures ParseMacAddress(FormatFields(bs), 0, prior) == MacParse(false, Overlay(prior, 0, bs), |bs|)
  {
    var s := FormatFields(bs);
    assert s[0..] == s;
    ParseFormattedFields(s, 0, 0, prior, bs);
  }

  /** The layout of formatted fields: every third character, from the
      third on, is ':' and all others are hex digits. */
  predicate FieldLayout(t: seq<char>) {
    forall j :: 0 <= j < |t| ==> (j % 3 == 2 <==> t[j] == ':') && (j % 3 != 2 ==> IsHexDigit(t[j]))
  }

  lemma {:induction false} FormatFieldsShape(bs: seq<Byte>)
    requires |bs| >= 1
    ensures FieldLayout(FormatFields(bs))
    decreases |bs|
  {
    var t := FormatFields(bs);
    if |bs| > 1 {
      var rest := FormatFields(bs[1..]);
      FormatFieldsShape(bs[1..]);
      assert t == Hex2(bs[0]) + [':'] + rest;
      forall j | 3 <= j < |t|
        ensures (j % 3 == 2 <==> t[j] == ':') && (j % 3 != 2 ==> IsHexDigit(t[j]))
      {
        var i := j - 3;
        assert t[j] == rest[i] && i % 3 == j % 3;
      }
    }
  }
}
