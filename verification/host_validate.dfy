/** The host console's command checks of
    app_traffic_gen/host_controller/traffic_gen_controller.c:
    `validate_pkt_ctrl_setting`, `validate_mode`, `validate_set_mac_address`
    and the range check of `validate_line_rate`. The file's static copies of
    `get_next_char` and `convert_atoi_substr` behave as the target's, so the
    `CText` scanners serve both. */
module HostValidate {
  import opened Machine
  import opened CText
  import opened Commands

  /** `validate_pkt_ctrl_setting`: accepts exactly a 'u', 'm' or 'b' class
      with weight 0 (sizes ignored), or with weight 1..100 and sizes
      60 <= min <= max <= 1518. */
  function ValidatePktCtrlSetting(buf: seq<char>): (ok: bool)
    ensures var f := PktCtrlFieldsOf(buf);
            ok <==> && f.kind in "umb"
                    && 0 <= f.weight <= 100
                    && (f.weight != 0 ==> 60 <= f.sizeMin <= f.sizeMax <= 1518)
  {
    var t := GetNextChar(buf, 1);
    if t.value != 'u' && t.value != 'm' && t.value != 'b' then false
    else
      var w := ConvertAtoiSubstr(buf, t.next);
      if w.value < 0 || w.value > 100 then false
      else if w.value == 0 then true
      else
        var lo := ConvertAtoiSubstr(buf, w.next);
        if lo.value < 60 || lo.value > 1518 then false
        else
          var hi := ConvertAtoiSubstr(buf, lo.next);
          if hi.value < 60 || hi.value > 1518 then false
          else lo.value <= hi.value
  }

  /** `validate_mode`: accepts exactly the letters s, r and d. */
  function ValidateMode(buf: seq<char>): (ok: bool)
    ensures ok <==> GetNextChar(buf, 1).value in "srd"
  {
    var c := GetNextChar(buf, 1).value;
    !(c != 's' && c != 'r' && c != 'd')
  }

  /** What `validate_set_mac_address` does: accept, reject, or never return. */
  datatype Verdict = Accepted | Rejected | Loops

  predicate MacChar(c: char) {
    IsSpace(c) || IsAlnum(c) || c == ':'
  }

  /** How the scan loop ends: it breaks with the colon count and the error
      flag, or it sits at a position where an iteration makes no progress. */
  datatype ScanEnd = Finished(count: nat, error: bool) | Stuck(at: nat)

  /** The `while (1)` loop of `validate_set_mac_address` from `pos` with
      `count` colons counted so far. One iteration skips white space, then an
      alphanumeric run (an error when longer than 2), then one ':' which it
      counts; it breaks at the terminator or on an error. An iteration that
      moves nothing leaves the state as it found it, so the loop would run
      forever: that is `Stuck`. */
  function MacScan(s: seq<char>, pos: nat, count: nat): (r: ScanEnd)
    requires pos <= |s|
    ensures r.Finished? ==> count <= r.count <= count + |s| - pos
    ensures r.Stuck? ==> pos <= r.at < |s| && At(s, r.at) != NUL
    decreases |s| - pos
  {
    var p1 := ScanWhile(s, pos, IsSpace);
    var p2 := ScanWhile(s, p1, IsAlnum);
    var error := p2 - p1 > 2;
    var colon := At(s, p2) == ':';
    var p3 := if colon then p2 + 1 else p2;
    var count' := if colon then count + 1 else count;
    if At(s, p3) == NUL || error then Finished(count', error)
    else if p3 == pos then Stuck(pos)
    else MacScan(s, p3, count')
  }

  /** `validate_set_mac_address` as written. */
  function ValidateSetMacAddress(buf: seq<char>): (v: Verdict)
    ensures GetNextChar(buf, 1).value !in "um" ==> v == Rejected
  {
    var t := GetNextChar(buf, 1);
    if t.value != 'u' && t.value != 'm' then Rejected
    else
      match MacScan(buf, t.next, 0)
      case Stuck(_) => Loops
      case Finished(count, error) => if count == 5 && !error then Accepted else Rejected
  }

  /** Three alphanumeric characters in a row start at `k`. */
  predicate Triple(s: seq<char>, k: nat) {
    IsAlnum(At(s, k)) && IsAlnum(At(s, k + 1)) && IsAlnum(At(s, k + 2))
  }

  /** No run of three alphanumerics lies within [i, j). */
  predicate NoTriple(s: seq<char>, i: nat, j: nat) {
    forall k :: i <= k && k + 2 < j ==> !Triple(s, k)
  }

  /** The number of ':' in [i, j). */
  function Colons(s: seq<char>, i: nat, j: nat): nat
    decreases j
  {
    if j <= i then 0 else Colons(s, i, j - 1) + (if At(s, j - 1) == ':' then 1 else 0)
  }

  /** Where the address text stops being made of white space, alphanumerics
      and colons. */
  function MacTextEnd(s: seq<char>, pos: nat): nat {
    ScanWhile(s, pos, MacChar)
  }

  lemma {:induction false} ColonsSplit(s: seq<char>, i: nat, j: nat, k: nat)
    requires i <= j <= k
    ensures Colons(s, i, k) == Colons(s, i, j) + Colons(s, j, k)
    decreases k
  {
    if k > j {
      ColonsSplit(s, i, j, k - 1);
    }
  }

  lemma {:induction false} NoColons(s: seq<char>, i: nat, j: nat)
    requires i <= j
    requires forall t :: i <= t < j ==> At(s, t) != ':'
    ensures Colons(s, i, j) == 0
    decreases j
  {
    if j > i {
      NoColons(s, i, j - 1);
    }
  }

  /** Scanning for the end from a later point of a clean prefix gives the
      same end. */
  lemma {:induction false} MacTextEndSkip(s: seq<char>, pos: nat, q: nat)
    requires pos <= q
    requires forall t :: pos <= t < q ==> MacChar(At(s, t))
    ensures MacTextEnd(s, pos) == MacTextEnd(s, q)
    decreases q - pos
  {
    if pos < q {
      MacTextEndSkip(s, pos + 1, q);
    }
  }

  /** Everything one loop iteration from `pos` passes is a MAC character,
      and an iteration that moves nothing sits on a foreign character. */
  lemma IterationChars(s: seq<char>, pos: nat)
    ensures var p1 := ScanWhile(s, pos, IsSpace);
            var p2 := ScanWhile(s, p1, IsAlnum);
            var p3 := if At(s, p2) == ':' then p2 + 1 else p2;
            && (forall t :: pos <= t < p3 ==> MacChar(At(s, t)))
            && (p3 == pos ==> !MacChar(At(s, pos)))
  {
  }

  /** An iteration counts the one colon it may pass. */
  lemma IterationColons(s: seq<char>, pos: nat)
    ensures var p1 := ScanWhile(s, pos, IsSpace);
            var p2 := ScanWhile(s, p1, IsAlnum);
            var p3 := if At(s, p2) == ':' then p2 + 1 else p2;
            Colons(s, pos, p3) == (if At(s, p2) == ':' then 1 else 0)
  {
    var p1 := ScanWhile(s, pos, IsSpace);
    var p2 := ScanWhile(s, p1, IsAlnum);
    NoColons(s, pos, p2);
    if At(s, p2) == ':' {
      assert Colons(s, pos, p2 + 1) == Colons(s, pos, p2) + 1;
    }
  }

  /** An iteration meets a triple exactly when its alphanumeric run is longer
      than two. */
  lemma IterationTriples(s: seq<char>, pos: nat)
    ensures var p1 := ScanWhile(s, pos, IsSpace);
            var p2 := ScanWhile(s, p1, IsAlnum);
            var p3 := if At(s, p2) == ':' then p2 + 1 else p2;
            && (p2 - p1 > 2 ==> Triple(s, p1) && p1 + 2 < p2)
            && (p2 - p1 <= 2 ==> forall k :: pos <= k < p3 ==> !Triple(s, k))
  {
    var p1 := ScanWhile(s, pos, IsSpace);
    var p2 := ScanWhile(s, p1, IsAlnum);
    var p3 := if At(s, p2) == ':' then p2 + 1 else p2;
    if p2 - p1 <= 2 {
      forall k | pos <= k < p3
        ensures !Triple(s, k)
      {
        if k >= p1 {
          assert !IsAlnum(At(s, p2));
        }
      }
    }
  }

  /** The facts about one loop iteration from `pos` that the proofs below
      share. */
  lemma IterationFacts(s: seq<char>, pos: nat)
    ensures var p1 := ScanWhile(s, pos, IsSpace);
            var p2 := ScanWhile(s, p1, IsAlnum);
            var p3 := if At(s, p2) == ':' then p2 + 1 else p2;
            && (forall t :: pos <= t < p3 ==> MacChar(At(s, t)))
            && (p2 - p1 > 2 ==> Triple(s, p1) && p1 + 2 < p2)
            && (p2 - p1 <= 2 ==> forall k :: pos <= k < p3 ==> !Triple(s, k))
            && Colons(s, pos, p3) == (if At(s, p2) == ':' then 1 else 0)
            && (p3 == pos ==> !MacChar(At(s, pos)))
  {
    IterationChars(s, pos);
    IterationColons(s, pos);
    IterationTriples(s, pos);
  }

  /** A run of three alphanumerics lies within [i, j). */
  predicate HasTriple(s: seq<char>, i: nat, j: nat) {
    exists k :: i <= k && k + 2 < j && Triple(s, k)
  }

  /** What an ending of the loop started at `pos` with `count` says about
      the text from `pos` to the end `e` of its MAC characters: a triple in
      [pos, e) makes it break with the error flag; otherwise it breaks at
      the terminator with the colons of [pos, e) counted, or sticks at `e`
      when a foreign character stops the text there. */
  predicate ScanMeaning(s: seq<char>, pos: nat, count: nat, r: ScanEnd) {
    var e := MacTextEnd(s, pos);
    match r
    case Finished(c, error) =>
      if error then HasTriple(s, pos, e)
      else At(s, e) == NUL && NoTriple(s, pos, e) && c == count + Colons(s, pos, e)
    case Stuck(b) => b == e && At(s, e) != NUL && NoTriple(s, pos, e)
  }

  /** An iteration that neither breaks nor sticks hands over to the next
      one at `q` without changing what the ending means. */
  lemma MeaningCarriesOver(s: seq<char>, pos: nat, q: nat, count: nat, colons: nat, r: ScanEnd)
    requires pos <= q
    requires forall t :: pos <= t < q ==> MacChar(At(s, t))
    requires forall k :: pos <= k < q ==> !Triple(s, k)
    requires Colons(s, pos, q) == colons
    requires ScanMeaning(s, q, count + colons, r)
    ensures ScanMeaning(s, pos, count, r)
  {
    MacTextEndSkip(s, pos, q);
    var e := MacTextEnd(s, pos);
    match r
    case Finished(c, error) =>
      if error {
        var k :| q <= k && k + 2 < e && Triple(s, k);
      } else {
        ColonsSplit(s, pos, q, e);
      }
    case Stuck(_) =>
  }

  /** Where one iteration of the loop from `pos` stops: after the white
      space, after the alphanumeric run, and after the optional ':'. */
  function Stops(s: seq<char>, pos: nat): (nat, nat, nat) {
    var p1 := ScanWhile(s, pos, IsSpace);
    var p2 := ScanWhile(s, p1, IsAlnum);
    (p1, p2, if At(s, p2) == ':' then p2 + 1 else p2)
  }

  /** The iteration from `pos` meets a run of three alphanumerics. */
  lemma MeaningOfError(s: seq<char>, pos: nat, count: nat)
    requires pos <= |s|
    requires Stops(s, pos).1 - Stops(s, pos).0 > 2
    ensures ScanMeaning(s, pos, count, MacScan(s, pos, count))
  {
    var (p1, p2, p3) := Stops(s, pos);
    IterationFacts(s, pos);
    MacTextEndSkip(s, pos, p3);
    assert pos <= p1 && p1 + 2 < MacTextEnd(s, pos) && Triple(s, p1);
  }

  /** The iteration from `pos` ends at the terminator. */
  lemma MeaningOfEnd(s: seq<char>, pos: nat, count: nat)
    requires pos <= |s|
    requires Stops(s, pos).1 - Stops(s, pos).0 <= 2 && At(s, Stops(s, pos).2) == NUL
    ensures ScanMeaning(s, pos, count, MacScan(s, pos, count))
  {
    var (p1, p2, p3) := Stops(s, pos);
    IterationFacts(s, pos);
    MacTextEndSkip(s, pos, p3);
    ScanWhileEnd(s, p3);
  }

  /** The iteration from `pos` moves nothing. */
  lemma MeaningOfStuck(s: seq<char>, pos: nat, count: nat)
    requires pos <= |s|
    requires Stops(s, pos).1 - Stops(s, pos).0 <= 2 && At(s, Stops(s, pos).2) != NUL
    requires Stops(s, pos).2 == pos
    ensures ScanMeaning(s, pos, count, MacScan(s, pos, count))
  {
    IterationFacts(s, pos);
    ScanWhileEnd(s, pos);
  }

  lemma {:induction false} MacScanMeaning(s: seq<char>, pos: nat, count: nat)
    requires pos <= |s|
    ensures ScanMeaning(s, pos, count, MacScan(s, pos, count))
    decreases |s| - pos
  {
    var (p1, p2, p3) := Stops(s, pos);
    if p2 - p1 > 2 {
      MeaningOfError(s, pos, count);
    } else if At(s, p3) == NUL {
      MeaningOfEnd(s, pos, count);
    } else if p3 == pos {
      MeaningOfStuck(s, pos, count);
    } else {
      var colon := At(s, p2) == ':';
      var count' := if colon then count + 1 else count;
      assert MacScan(s, pos, count) == MacScan(s, p3, count');
      IterationFacts(s, pos);
      MacScanMeaning(s, p3, count');
      MeaningCarriesOver(s, pos, p3, count, if colon then 1 else 0, MacScan(s, p3, count'));
    }
  }

  /** The end scan stops at once on a character that is not a MAC character. */
  lemma ScanWhileEnd(s: seq<char>, q: nat)
    requires !MacChar(At(s, q))
    ensures MacTextEnd(s, q) == q
  {
  }

  /** `validate_set_mac_address` in terms of the text after the type letter,
      up to the first character that is not white space, alphanumeric or ':'.
      It accepts exactly when that text reaches the terminator, holds no run
      of three alphanumerics and exactly five colons; it never returns
      exactly when a foreign character stops the text before any such run. */
  lemma ValidateSetMacAddressMeaning(buf: seq<char>)
    requires GetNextChar(buf, 1).value in "um"
    ensures var pos := GetNextChar(buf, 1).next;
            var e := MacTextEnd(buf, pos);
            && (ValidateSetMacAddress(buf) == Accepted <==> At(buf, e) == NUL && NoTriple(buf, pos, e) && Colons(buf, pos, e) == 5)
            && (ValidateSetMacAddress(buf) == Loops <==> At(buf, e) != NUL && NoTriple(buf, pos, e))
  {
    var pos := GetNextChar(buf, 1).next;
    MacScanMeaning(buf, pos, 0);
    var e := MacTextEnd(buf, pos);
    if HasTriple(buf, pos, e) {
      var k :| pos <= k && k + 2 < e && Triple(buf, k);
    }
  }

  /** The loop never returns on an address written with '-' separators. */
  lemma DashSeparatedMacLoops()
    ensures ValidateSetMacAddress("a u 00-11-22-33-44-55") == Loops
  {
    var buf := "a u 00-11-22-33-44-55";
    assert buf[1] == ' ' && buf[2] == 'u' && buf[3] == ' ';
    assert buf[4] == '0' && buf[5] == '0' && buf[6] == '-';
    assert ScanWhile(buf, 2, IsSpace) == 2;
    assert ScanWhile(buf, 1, IsSpace) == 2;
    assert GetNextChar(buf, 1) == Scanned('u', 3);
    assert MacTextEnd(buf, 6) == 6;
    assert MacTextEnd(buf, 5) == 6;
    assert MacTextEnd(buf, 4) == 6;
    assert MacTextEnd(buf, 3) == 6;
    assert NoTriple(buf, 3, 6) by {
      assert !IsAlnum(At(buf, 3));
    }
    ValidateSetMacAddressMeaning(buf);
  }

  /** `validate_set_mac_address` as evidently intended: an address text the
      loop cannot advance over is rejected instead of hanging the console. */
  function ValidateSetMacAddressTotal(buf: seq<char>): (ok: bool)
    ensures ok <==> var t := GetNextChar(buf, 1);
                    var e := MacTextEnd(buf, t.next);
                    && t.value in "um"
                    && At(buf, e) == NUL && NoTriple(buf, t.next, e) && Colons(buf, t.next, e) == 5
    ensures ValidateSetMacAddress(buf) != Loops ==> (ok <==> ValidateSetMacAddress(buf) == Accepted)
  {
    if GetNextChar(buf, 1).value in "um" then
      ValidateSetMacAddressMeaning(buf);
      ValidateSetMacAddress(buf) == Accepted
    else false
  }

  /** The range check of `validate_line_rate` as written: the value, as the
      unsigned it is stored in, when the cursor moved and the value is at
      most 100. */
  function ValidateLineRate(buf: seq<char>): (p: Option<U32>)
    ensures p.Some? <==> !Blank(buf, 1) && ToU32(ConvertAtoiSubstr(buf, 1).value) <= 100
    ensures p.Some? ==> p.value == ConvertAtoiSubstr(buf, 1).value
  {
    var r := ConvertAtoiSubstr(buf, 1);
    var lineRate := ToU32(r.value);
    if r.next == 1 || lineRate > 100 then None else Some(lineRate)
  }

  /** The check lets a line rate of 0 through, whose delay factor is a
      division by zero. */
  lemma LineRateAcceptsZero()
    ensures ValidateLineRate("r 0") == Some(0)
  {
    assert ScanWhile("r 0", 1, IsSpace) == 2 by {
      assert ScanWhile("r 0", 2, IsSpace) == 2;
    }
    assert ScanWhile("r 0", 2, IsDigit) == 3;
    assert ScanWhile("r 0", 2, InToken) == 3;
    assert NumeralValue("r 0", 2, 3, 10) == 0;
  }

  /** The range check as evidently intended: a percentage in 1..100. */
  function ValidateLineRateNonZero(buf: seq<char>): (p: Option<U32>)
    ensures p.Some? <==> !Blank(buf, 1) && 1 <= ConvertAtoiSubstr(buf, 1).value <= 100
    ensures p.Some? ==> 1 <= p.value <= 100 && p.value == ConvertAtoiSubstr(buf, 1).value
  {
    match ValidateLineRate(buf)
    case None => None
    case Some(rate) => if rate == 0 then None else Some(rate)
  }
}
