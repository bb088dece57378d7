/** `handle_host_data` and `copy_over_config` of
    app_traffic_gen/src/packet_controller.c: the command state machine that
    edits the directed configuration through its write slot and publishes it
    by swapping the slots' roles.

    The engine state gathers the caller's variables that the handler writes
    through pointers (generator mode, current graph node, rate factor), the
    write index `g_directed_write_index`, and the generator's tables, whose
    read index is `g_directed_read_index`. */
module Controller {
  import opened Machine
  import opened CText
  import opened Generator
  import opened Commands

  datatype Engine = Engine(
    mode: GeneratorMode,
    ctrl: StateId,
    rateFactor: U32,
    writeIndex: Slot,
    tables: Tables)

  /** The two indices always name different slots. */
  predicate Valid(e: Engine) {
    e.tables.readIndex == Other(e.writeIndex)
  }

  /** The engine at start-up: write index 1 over the initial tables (read
      index 0). The mode, node and rate factor belong to the caller. */
  function InitialEngine(mode: GeneratorMode, ctrl: StateId, rateFactor: U32): (e: Engine)
    ensures Valid(e)
    ensures e.writeIndex == 1 && e.tables.readIndex == 0
  {
    Engine(mode, ctrl, rateFactor, 1, InitialTables)
  }

  /** The slot being edited. */
  function WriteSlot(e: Engine): DirectedConfig {
    e.tables.directed.Get(e.writeIndex)
  }

  /** The slot the generator reads. */
  function ReadSlot(e: Engine): DirectedConfig {
    e.tables.directed.Get(e.tables.readIndex)
  }

  /** Everything the generator sees apart from the mode, which 'm' may
      change: node, rate factor, both indices, the slot behind the read
      index, source address and counter. */
  predicate SameLive(e: Engine, e': Engine) {
    && e'.ctrl == e.ctrl
    && e'.rateFactor == e.rateFactor
    && e'.writeIndex == e.writeIndex
    && e'.tables.readIndex == e.tables.readIndex
    && ReadSlot(e') == ReadSlot(e)
    && e'.tables.srcMac == e.tables.srcMac
    && e'.tables.seqNum == e.tables.seqNum
  }

  /** `e` with its directed tables replaced by `d`; the callers change only
      the write slot of `d`, as their contracts state. */
  function WithDirected(e: Engine, d: Pair<DirectedConfig>): Engine {
    e.(tables := e.tables.(directed := d))
  }

  /** 'm': the next non-space letter selects silent, random or directed; any
      other letter changes nothing. Only the mode is touched. */
  function SetGeneratorMode(e: Engine, buf: seq<char>): (e': Engine)
    ensures e' == e.(mode := e'.mode)
    ensures var c := GetNextChar(buf, 1).value;
            && (c == 's' ==> e'.mode == Silent)
            && (c == 'r' ==> e'.mode == Random)
            && (c == 'd' ==> e'.mode == Directed)
            && (c !in "srd" ==> e' == e)
  {
    match GetNextChar(buf, 1).value
    case 's' => e.(mode := Silent)
    case 'r' => e.(mode := Random)
    case 'd' => e.(mode := Directed)
    case _ => e
  }

  /** The packet type a letter names. */
  function TypeLetter(c: char): (k: Option<PktType>)
    ensures k.Some? <==> c in "umb"
  {
    if c == 'u' then Some(Unicast)
    else if c == 'm' then Some(Multicast)
    else if c == 'b' then Some(Broadcast)
    else None
  }

  /** The class as command 'c' leaves it: the new weight, and when that
      weight is not 0, the new bounds converted to unsigned. */
  function EditClass(c: PktCtrl, weight: I32, sizeMin: I32, sizeMax: I32): (c': PktCtrl)
    ensures c'.kind == c.kind && c'.weight == weight
    ensures weight == 0 ==> c'.sizeMin == c.sizeMin && c'.sizeMax == c.sizeMax
    ensures weight != 0 ==> c'.sizeMin == ToU32(sizeMin) && c'.sizeMax == ToU32(sizeMax)
  {
    if weight != 0 then c.(weight := weight, sizeMin := ToU32(sizeMin), sizeMax := ToU32(sizeMax))
    else c.(weight := weight)
  }

  /** 'c': the type letter, then the weight, then (only when the weight is
      not 0) the minimum and maximum size, stored in that type's class of
      the write slot. The bounds are read only when the weight is not 0, so
      their text may be absent otherwise. */
  function PktControl(e: Engine, buf: seq<char>): (e': Engine)
    ensures var f := PktCtrlFieldsOf(buf);
            var d, d' := e.tables.directed, e'.tables.directed;
            && (TypeLetter(f.kind).None? ==> e' == e)
            && (TypeLetter(f.kind).Some? ==>
                  var k := TypeLetter(f.kind).value;
                  && GetPacketControl(d', k, e.writeIndex) == EditClass(GetPacketControl(d, k, e.writeIndex), f.weight, f.sizeMin, f.sizeMax)
                  && (forall k': PktType, i: Slot :: (k', i) != (k, e.writeIndex) ==> GetPacketControl(d', k', i) == GetPacketControl(d, k', i))
                  && d'.Get(e.writeIndex).rateFactor == d.Get(e.writeIndex).rateFactor
                  && GetUnicastMac(d', e.writeIndex) == GetUnicastMac(d, e.writeIndex)
                  && GetMulticastMac(d', e.writeIndex) == GetMulticastMac(d, e.writeIndex)
                  && WithDirected(e, d') == e')
    ensures Valid(e) ==> e'.mode == e.mode && SameLive(e, e')
    ensures e'.tables.directed.Get(Other(e.writeIndex)) == e.tables.directed.Get(Other(e.writeIndex))
  {
    var f := PktCtrlFieldsOf(buf);
    match TypeLetter(f.kind)
    case None => e
    case Some(k) =>
      var d := e.tables.directed;
      var c := EditClass(GetPacketControl(d, k, e.writeIndex), f.weight, f.sizeMin, f.sizeMax);
      WithDirected(e, SetPacketControl(d, k, e.writeIndex, c))
  }

  /** 'r': the number after the command, converted to unsigned, becomes the
      write slot's rate factor; nothing else changes. */
  function LineRate(e: Engine, buf: seq<char>): (e': Engine)
    ensures WriteSlot(e') == WriteSlot(e).(rateFactor := ToU32(ConvertAtoiSubstr(buf, 1).value))
    ensures e'.tables.directed.Get(Other(e.writeIndex)) == e.tables.directed.Get(Other(e.writeIndex))
    ensures e' == WithDirected(e, e'.tables.directed)
  {
    var d := e.tables.directed;
    var slot := d.Get(e.writeIndex);
    WithDirected(e, d.Set(e.writeIndex, slot.(rateFactor := ToU32(ConvertAtoiSubstr(buf, 1).value))))
  }

  /** 'a': the type letter, then a MAC address parsed into an all-zero
      array. A parse error, or a letter other than 'u' or 'm', changes
      nothing; otherwise that table's entry in the write slot is replaced. */
  function SetMacAddress(e: Engine, buf: seq<char>): (e': Engine)
    ensures var t := GetNextChar(buf, 1);
            var p := ParseMacAddress(buf, t.next, ZeroMac);
            var d, d' := e.tables.directed, e'.tables.directed;
            && (p.error || t.value !in "um" ==> e' == e)
            && (!p.error && t.value == 'u' ==> d' == SetUnicastMac(d, e.writeIndex, p.mac))
            && (!p.error && t.value == 'm' ==> d' == SetMulticastMac(d, e.writeIndex, p.mac))
            && e' == WithDirected(e, d')
    ensures e'.tables.directed.Get(Other(e.writeIndex)) == e.tables.directed.Get(Other(e.writeIndex))
  {
    var t := GetNextChar(buf, 1);
    var p := ParseMacAddress(buf, t.next, ZeroMac);
    var d := e.tables.directed;
    if p.error then e
    else if t.value == 'u' then WithDirected(e, SetUnicastMac(d, e.writeIndex, p.mac))
    else if t.value == 'm' then WithDirected(e, SetMulticastMac(d, e.writeIndex, p.mac))
    else e
  }

  /** `copy_over_config(from)`: the three classes, the rate factor and both
      MAC addresses of slot `from` are copied field by field into the other
      slot. */
  function CopyOverConfig(d: Pair<DirectedConfig>, from: Slot): (d': Pair<DirectedConfig>)
    ensures d'.Get(from) == d.Get(from)
  {
    var to := Other(from);
    var d1 := SetPacketControl(d, Unicast, to, GetPacketControl(d, Unicast, from));
    var d2 := SetPacketControl(d1, Multicast, to, GetPacketControl(d1, Multicast, from));
    var d3 := SetPacketControl(d2, Broadcast, to, GetPacketControl(d2, Broadcast, from));
    var slot := d3.Get(to);
    var d4 := d3.Set(to, slot.(rateFactor := d3.Get(from).rateFactor));
    var d5 := SetUnicastMac(d4, to, GetUnicastMac(d4, from));
    SetMulticastMac(d5, to, GetMulticastMac(d5, from))
  }

  /** The field-by-field copy leaves the other slot equal to the source slot:
      nothing of the destination's old contents survives. */
  lemma CopyOverConfigCopiesSlot(d: Pair<DirectedConfig>, from: Slot)
    ensures CopyOverConfig(d, from).Get(Other(from)) == d.Get(from)
    ensures CopyOverConfig(d, from).Get(from) == d.Get(from)
  {
    var to := Other(from);
    var s := CopyOverConfig(d, from).Get(to);
    var src := d.Get(from);
    assert s.unicast == GetPacketControl(CopyOverConfig(d, from), Unicast, to);
    assert s.multicast == GetPacketControl(CopyOverConfig(d, from), Multicast, to);
    assert s.broadcast == GetPacketControl(CopyOverConfig(d, from), Broadcast, to);
    assert s == DirectedConfig(src.unicast, src.multicast, src.broadcast, src.rateFactor, src.unicastMac, src.multicastMac);
  }

  /** 's' (and the tail of 'e'): the write slot becomes the read slot and the
      write index flips; the node restarts at `initial` in random mode and at
      the new read slot's directed node in directed mode (silent mode keeps
      it); the new read slot's rate factor is published. */
  function SwapCfg(e: Engine): (e': Engine)
    ensures e'.tables.readIndex == e.writeIndex && e'.writeIndex == Other(e.writeIndex)
    ensures Valid(e')
    ensures ReadSlot(e') == WriteSlot(e)
    ensures e'.rateFactor == WriteSlot(e).rateFactor
    ensures e.mode == Random ==> e'.ctrl == Initial
    ensures e.mode == Directed ==> e'.ctrl == DirectedNode(e.writeIndex)
    ensures e.mode == Silent ==> e'.ctrl == e.ctrl
    ensures e'.mode == e.mode && e'.tables.directed == e.tables.directed
    ensures e'.tables.srcMac == e.tables.srcMac && e'.tables.seqNum == e.tables.seqNum
  {
    var readIndex := e.writeIndex;
    var ctrl := match e.mode
      case Random => Initial
      case Directed => DirectedNode(readIndex)
      case Silent => e.ctrl;
    Engine(e.mode, ctrl, e.tables.directed.Get(readIndex).rateFactor, Other(e.writeIndex),
           e.tables.(readIndex := readIndex))
  }

  /** 'e': copy the write slot over the other one, then swap. */
  function ApplyCfg(e: Engine): (e': Engine)
    ensures e'.tables.directed.Get(0) == e'.tables.directed.Get(1) == WriteSlot(e)
    ensures e'.tables.readIndex == e.writeIndex && e'.writeIndex == Other(e.writeIndex)
    ensures Valid(e')
    ensures e'.rateFactor == WriteSlot(e).rateFactor
    ensures e.mode == Random ==> e'.ctrl == Initial
    ensures e.mode == Directed ==> e'.ctrl == DirectedNode(e.writeIndex)
    ensures e.mode == Silent ==> e'.ctrl == e.ctrl
    ensures e'.mode == e.mode
    ensures e'.tables.srcMac == e.tables.srcMac && e'.tables.seqNum == e.tables.seqNum
  {
    CopyOverConfigCopiesSlot(e.tables.directed, e.writeIndex);
    SwapCfg(WithDirected(e, CopyOverConfig(e.tables.directed, e.writeIndex)))
  }

  /** `handle_host_data`: dispatch on the first byte of the buffer. Print,
      quit and unknown commands change nothing. */
  function HandleHostData(e: Engine, buf: seq<char>): (e': Engine)
    ensures Valid(e) ==> Valid(e')
    ensures At(buf, 0) == CmdPrintPktConfiguration || At(buf, 0) == CmdQuit ==> e' == e
    ensures At(buf, 0) !in "smrace" ==> e' == e
    ensures At(buf, 0) != CmdSetGeneratorMode ==> e'.mode == e.mode
    ensures Valid(e) && At(buf, 0) !in "se" ==> SameLive(e, e')
    ensures At(buf, 0) !in "se" ==> e'.tables.directed.Get(Other(e.writeIndex)) == e.tables.directed.Get(Other(e.writeIndex))
  {
    var cmd := At(buf, 0);
    if cmd == CmdSetGeneratorMode then SetGeneratorMode(e, buf)
    else if cmd == CmdPktControl then PktControl(e, buf)
    else if cmd == CmdLineRate then LineRate(e, buf)
    else if cmd == CmdSetMacAddress then SetMacAddress(e, buf)
    else if cmd == CmdApplyCfg then ApplyCfg(e)
    else if cmd == CmdSwapCfg then SwapCfg(e)
    else e
  }

  /** Two swaps restore both indices and the published slot. */
  lemma SwapTwice(e: Engine)
    requires Valid(e)
    ensures SwapCfg(SwapCfg(e)).writeIndex == e.writeIndex
    ensures SwapCfg(SwapCfg(e)).tables == e.tables
    ensures SwapCfg(SwapCfg(e)).rateFactor == ReadSlot(e).rateFactor
  {
  }

  /** The engine after a run of commands. */
  function Run(e: Engine, cmds: seq<seq<char>>): Engine
    decreases |cmds|
  {
    if cmds == [] then e else Run(HandleHostData(e, cmds[0]), cmds[1..])
  }

  /** No command of the run is a swap or an apply. */
  predicate EditsOnly(cmds: seq<seq<char>>) {
    forall j :: 0 <= j < |cmds| ==> At(cmds[j], 0) !in "se"
  }

  /** Edits never disturb what the generator sees: after any run of
      commands without 's' or 'e', the read slot, read index, node, rate
      factor, source address and counter are what they were, and the two
      indices still name different slots. */
  lemma {:induction false} EditsKeepLiveSlot(e: Engine, cmds: seq<seq<char>>)
    requires Valid(e) && EditsOnly(cmds)
    ensures Valid(Run(e, cmds)) && SameLive(e, Run(e, cmds))
    decreases |cmds|
  {
    if cmds != [] {
      var e1 := HandleHostData(e, cmds[0]);
      assert At(cmds[0], 0) !in "se";
      assert EditsOnly(cmds[1..]) by {
        forall j | 0 <= j < |cmds[1..]|
          ensures At(cmds[1..][j], 0) !in "se"
        {
          assert cmds[1..][j] == cmds[j + 1];
        }
      }
      EditsKeepLiveSlot(e1, cmds[1..]);
    }
  }

  /** Every command keeps the two indices on different slots. */
  lemma {:induction false} RunKeepsIndicesApart(e: Engine, cmds: seq<seq<char>>)
    requires Valid(e)
    ensures Valid(Run(e, cmds))
    decreases |cmds|
  {
    if cmds != [] {
      RunKeepsIndicesApart(HandleHostData(e, cmds[0]), cmds[1..]);
    }
  }

  /** Edits followed by a swap publish exactly the edited slot, and the slot
      the generator was reading before the edits, untouched by them, becomes
      the one the next edits go to: the double buffer trades places. */
  lemma {:induction false} SwapPublishesEdits(e: Engine, cmds: seq<seq<char>>)
    requires Valid(e) && EditsOnly(cmds)
    ensures ReadSlot(SwapCfg(Run(e, cmds))) == WriteSlot(Run(e, cmds))
    ensures SwapCfg(Run(e, cmds)).tables.readIndex == e.writeIndex
    ensures SwapCfg(Run(e, cmds)).writeIndex == e.tables.readIndex
    ensures WriteSlot(SwapCfg(Run(e, cmds))) == ReadSlot(e)
  {
    EditsKeepLiveSlot(e, cmds);
  }
}
