/** The command-text scanners of app_traffic_gen/src/util/c_utils.c:
    `get_next_char`, `convert_atoi_substr` and `parse_mac_address`, together
    with the pieces of the C library they lean on (`isspace`, `isalnum`,
    `atoi`, `strtol` in base 16).

    A C string is modelled as a `seq<char>` read through `At`: positions at or
    beyond the end read as the NUL terminator, so a cursor that runs past the
    terminator (as `get_next_char` does on a blank line) keeps reading NULs. */
module CText {
  import opened Machine

  const NUL: char := '\0'

  /** The character the C code reads at position `i`. */
  function At(s: seq<char>, i: nat): char {
    if i < |s| then s[i] else NUL
  }

  /** `isspace` in the C locale: space, \t, \n, \v, \f, \r. */
  predicate IsSpace(c: char) {
    c == ' ' || '\t' <= c <= '\r'
  }

  predicate IsDigit(c: char) {
    '0' <= c <= '9'
  }

  /** `isalnum` in the C locale. */
  predicate IsAlnum(c: char) {
    IsDigit(c) || 'a' <= c <= 'z' || 'A' <= c <= 'Z'
  }

  predicate IsHexDigit(c: char) {
    IsDigit(c) || 'a' <= c <= 'f' || 'A' <= c <= 'F'
  }

  /** A character of a token read by `convert_atoi_substr`: neither the
      terminator nor white space. */
  predicate InToken(c: char) {
    c != NUL && !IsSpace(c)
  }

  function HexDigitValue(c: char): (v: nat)
    requires IsHexDigit(c)
    ensures v < 16
    ensures IsDigit(c) ==> v < 10
  {
    if IsDigit(c) then c as int - '0' as int
    else if 'a' <= c <= 'f' then c as int - 'a' as int + 10
    else c as int - 'A' as int + 10
  }

  /** The first position at or after `i` whose character fails `p`: the
      `while (p(*ptr)) ptr++;` loops of the source. */
  function ScanWhile(s: seq<char>, i: nat, p: char -> bool): (k: nat)
    requires !p(NUL)
    ensures i <= k
    ensures !p(At(s, k))
    ensures forall j :: i <= j < k ==> p(At(s, j))
    ensures i <= |s| ==> k <= |s|
    decreases |s| - i
  {
    if p(At(s, i)) then ScanWhile(s, i + 1, p) else i
  }

  /** The value, in `base`, of the digits at positions [i, j), most
      significant first. */
  function NumeralValue(s: seq<char>, i: nat, j: nat, base: nat): nat
    requires i <= j
    requires forall t :: i <= t < j ==> IsHexDigit(At(s, t))
    decreases j - i
  {
    if j == i then 0 else NumeralValue(s, i, j - 1, base) * base + HexDigitValue(At(s, j - 1))
  }

  datatype Scanned<T> = Scanned(value: T, next: nat)

  /** `get_next_char`: skips white space, returns the first other character
      (the terminator if nothing else is left) and moves the cursor one past it. */
  function GetNextChar(s: seq<char>, i: nat): (r: Scanned<char>)
    ensures i < r.next
    ensures r.value == At(s, r.next - 1) && !IsSpace(r.value)
    ensures forall j :: i <= j < r.next - 1 ==> IsSpace(At(s, j))
  {
    var k := ScanWhile(s, i, IsSpace);
    Scanned(At(s, k), k + 1)
  }

  /** Only white space is left between `i` and the terminator. */
  predicate Blank(s: seq<char>, i: nat) {
    At(s, ScanWhile(s, i, IsSpace)) == NUL
  }

  /** `atoi` applied at a position that holds no white space: an optional
      sign, then the longest run of decimal digits (none reads as 0),
      saturated to 32 bits as the target's `strtol` does. */
  function Atoi(s: seq<char>, k: nat): (r: I32)
    ensures At(s, k) == '-' ==> r <= 0
    ensures At(s, k) != '-' ==> r >= 0
    ensures !IsDigit(At(s, if At(s, k) in "+-" then k + 1 else k)) ==> r == 0
  {
    var neg := At(s, k) == '-';
    var d := if At(s, k) == '-' || At(s, k) == '+' then k + 1 else k;
    var e := ScanWhile(s, d, IsDigit);
    var mag: int := NumeralValue(s, d, e, 10);
    Clamp32(if neg then -mag else mag)
  }

  /** `convert_atoi_substr`: when only white space is left, returns 0 and
      leaves the cursor where it was; otherwise returns `atoi` of the next
      token and moves the cursor to the white space or terminator after it. */
  function ConvertAtoiSubstr(s: seq<char>, i: nat): Scanned<I32> {
    var k := ScanWhile(s, i, IsSpace);
    if At(s, k) == NUL then Scanned(0, i)
    else Scanned(Atoi(s, k), ScanWhile(s, k, InToken))
  }

  /** What `convert_atoi_substr` reads: nothing from blank text, and
      otherwise the `atoi` value of the next token, leaving the cursor on the
      first character after it. */
  lemma ConvertAtoiSubstrReads(s: seq<char>, i: nat)
    ensures var r := ConvertAtoiSubstr(s, i);
            && (Blank(s, i) ==> r == Scanned(0, i))
            && (!Blank(s, i) ==>
                  var k := ScanWhile(s, i, IsSpace);
                  && i <= k < r.next <= |s|
                  && r.value == Atoi(s, k)
                  && (forall j :: k <= j < r.next ==> InToken(At(s, j)))
                  && !InToken(At(s, r.next)))
  {
  }

  /** Where the digits of a base-16 numeral start, after an optional sign
      and an optional 0x/0X prefix (the prefix counts only when a hex digit
      follows it, as in the C library). */
  function HexDigitsStart(s: seq<char>, k: nat): nat {
    var j := if At(s, k) == '-' || At(s, k) == '+' then k + 1 else k;
    if At(s, j) == '0' && (At(s, j + 1) == 'x' || At(s, j + 1) == 'X') && IsHexDigit(At(s, j + 2))
    then j + 2 else j
  }

  /** A base-16 numeral starts at `k`: a hex digit, possibly after a sign. */
  predicate HexNumberAt(s: seq<char>, k: nat) {
    IsHexDigit(At(s, k)) || ((At(s, k) == '-' || At(s, k) == '+') && IsHexDigit(At(s, k + 1)))
  }

  /** `strtol(ptr, &end, 16)` with a 32-bit `long`: the value and the end
      position, which is `i` itself when no digit was consumed. */
  function Strtol16(s: seq<char>, i: nat): (r: Scanned<I32>)
    ensures r.next == i <==> !HexNumberAt(s, ScanWhile(s, i, IsSpace))
    ensures r.next == i ==> r.value == 0
    ensures r.next != i ==> i < r.next && IsHexDigit(At(s, r.next - 1)) && !IsHexDigit(At(s, r.next))
  {
    var k := ScanWhile(s, i, IsSpace);
    var d := HexDigitsStart(s, k);
    var e := ScanWhile(s, d, IsHexDigit);
    if e == d then Scanned(0, i)
    else
      var mag: int := NumeralValue(s, d, e, 16);
      Scanned(Clamp32(if At(s, k) == '-' then -mag else mag), e)
  }

  /** The low eight bits of an `int`: assignment to an `unsigned char`. */
  function ToByte(v: int): (b: Byte)
    ensures 0 <= v < 256 ==> b == v
    ensures (b - v) % 256 == 0
  {
    v % 256
  }

  /** Outcome of `parse_mac_address`: the error flag it returns, the contents
      of the caller's six-byte array afterwards, and how many leading bytes
      of that array were assigned. */
  datatype MacParse = MacParse(error: bool, mac: Mac, fields: nat)

  /** The loop of `parse_mac_address` entered at `pos` with `index` fields
      already stored into `mac`. */
  function ParseMacFrom(s: seq<char>, pos: nat, index: nat, mac: Mac): (r: MacParse)
    requires index <= 6
    ensures index <= r.fields <= 6
    ensures forall k :: 0 <= k < 6 && (k < index || r.fields <= k) ==> r.mac[k] == mac[k]
    ensures index < 6 && At(s, pos) != NUL && !HexNumberAt(s, ScanWhile(s, pos, IsSpace)) ==> r.error
    ensures (index == 6 || At(s, pos) == NUL) ==> r == MacParse(false, mac, index)
    ensures index < 6 && At(s, pos) != NUL && HexNumberAt(s, ScanWhile(s, pos, IsSpace)) ==>
              var v := Strtol16(s, ScanWhile(s, pos, IsSpace));
              var mac' := mac[index := ToByte(v.value)];
              var q := ScanWhile(s, v.next, IsSpace);
              && index < r.fields
              && r.mac[index] == ToByte(v.value)
              && (At(s, q) == NUL ==> r == MacParse(false, mac', index + 1))
              && (At(s, q) != NUL && At(s, q) != ':' ==> r == MacParse(true, mac', index + 1))
    decreases |s| - pos
  {
    if At(s, pos) == NUL || index == 6 then MacParse(false, mac, index)
    else
      var p := ScanWhile(s, pos, IsSpace);
      var v := Strtol16(s, p);
      if v.next == p then MacParse(true, mac, index)
      else
        var mac' := mac[index := ToByte(v.value)];
        var q := ScanWhile(s, v.next, IsSpace);
        if At(s, q) == NUL then MacParse(false, mac', index + 1)
        else if At(s, q) == ':' then ParseMacFrom(s, q + 1, index + 1, mac')
        else MacParse(true, mac', index + 1)
  }

  /** `parse_mac_address(ptr, mac)` with the caller's array holding `prior`:
      bytes past the fields that were read keep their prior values. */
  function ParseMacAddress(s: seq<char>, pos: nat, prior: Mac): (r: MacParse)
    ensures r.fields <= 6
    ensures forall k :: r.fields <= k < 6 ==> r.mac[k] == prior[k]
    ensures At(s, pos) == NUL ==> r == MacParse(false, prior, 0)
    ensures At(s, pos) != NUL && !HexNumberAt(s, ScanWhile(s, pos, IsSpace)) ==> r.error
    ensures At(s, pos) != NUL && HexNumberAt(s, ScanWhile(s, pos, IsSpace)) ==>
              var v := Strtol16(s, ScanWhile(s, pos, IsSpace));
              var q := ScanWhile(s, v.next, IsSpace);
              && 1 <= r.fields
              && r.mac[0] == ToByte(v.value)
              && (At(s, q) == NUL ==> r == MacParse(false, prior[0 := ToByte(v.value)], 1))
              && (At(s, q) != NUL && At(s, q) != ':' ==> r == MacParse(true, prior[0 := ToByte(v.value)], 1))
  {
    ParseMacFrom(s, pos, 0, prior)
  }
}
