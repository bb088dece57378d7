/** The data and the two selections of app_traffic_gen/src/packet_generator.c:
    packet classes (`pkt_ctrl_t`), the static state graph (`pkt_gen_ctrl_t`
    nodes `initial`, `unicast_only`, `multicast_only`, `broadcast_only` and
    `directed[2]`), the two-slot directed tables with their MAC tables, and
    `choose_packet_type` / `choose_next` with the random draws as arguments.

    The C graph is a web of pointers; here it is an arena addressed by
    `StateId`, and a node's packet types are `ClassRef`s resolved against the
    current tables. */
module Generator {
  import opened Machine
  import Selector

  /** `generator_mode_t`. */
  datatype GeneratorMode = Silent | Random | Directed

  /** `pkt_type_t`. */
  datatype PktType = Unicast | Multicast | Broadcast

  /** `pkt_ctrl_t` without its VLAN fields, which nothing reads. */
  datatype PktCtrl = PktCtrl(kind: PktType, sizeMin: U32, sizeMax: U32, weight: I32)

  /** One slot of the directed configuration: the entries `x[i]` of
      `unicast_directed`, `multicast_directed`, `broadcast_directed`,
      `g_rate_factor`, `g_unicast_mac` and `g_multicast_mac`. */
  datatype DirectedConfig = DirectedConfig(
    unicast: PktCtrl,
    multicast: PktCtrl,
    broadcast: PktCtrl,
    rateFactor: U32,
    unicastMac: Mac,
    multicastMac: Mac)

  /** The generator's globals: `g_directed_read_index`, the directed slots,
      `g_src_mac`, and the static sequence counter of `fill_pkt_hdr`. */
  datatype Tables = Tables(readIndex: Slot, directed: Pair<DirectedConfig>, srcMac: Mac, seqNum: U32)

  /** The nodes of the state graph. */
  datatype StateId = Initial | UnicastOnly | MulticastOnly | BroadcastOnly | DirectedNode(slot: Slot)

  /** A packet type of a node: one of the three fixed random-mode classes, or
      a class of one directed slot. */
  datatype ClassRef = RandomRef(kind: PktType) | DirectedRef(kind: PktType, slot: Slot)

  /** A selection: the position of the class in the node's list, the class,
      and the frame length drawn for it. */
  datatype Chosen = Chosen(index: nat, ctrl: PktCtrl, len: U32)

  // The fixed classes of random mode (`unicast`, `multicast`, `broadcast`).
  const RandomUnicast := PktCtrl(Unicast, 64, 1500, 20)
  const RandomMulticast := PktCtrl(Multicast, 64, 1500, 50)
  const RandomBroadcast := PktCtrl(Broadcast, 64, 1500, 30)

  const InitialUnicastMac: Mac := [0x00, 0x22, 0x97, 0x00, 0x42, 0xa2]
  const InitialMulticastMac: Mac := [0x01, 0x22, 0x97, 0x00, 0x42, 0xa6]
  const ZeroMac: Mac := [0, 0, 0, 0, 0, 0]

  /** The sequence counter's first value. */
  const InitialSeqNum: U32 := 1

  /** The directed tables as initialised, slot by slot (the rate factors
      start at 0). */
  const InitialSlot0 := DirectedConfig(
    PktCtrl(Unicast, 64, 64, 35), PktCtrl(Multicast, 64, 1500, 0), PktCtrl(Broadcast, 64, 1500, 0),
    0, InitialUnicastMac, InitialMulticastMac)
  const InitialSlot1 := DirectedConfig(
    PktCtrl(Unicast, 64, 1500, 35), PktCtrl(Multicast, 64, 1500, 30), PktCtrl(Broadcast, 64, 1500, 40),
    0, InitialUnicastMac, InitialMulticastMac)

  /** The globals at start-up: read index 0, source MAC all zero, counter 1. */
  const InitialTables := Tables(0, Pair(InitialSlot0, InitialSlot1), ZeroMac, InitialSeqNum)

  function RandomClass(k: PktType): (c: PktCtrl)
    ensures c.kind == k
    ensures ValidClass(c, k) && c.weight != 0 && c.sizeMin < c.sizeMax
  {
    match k
    case Unicast => RandomUnicast
    case Multicast => RandomMulticast
    case Broadcast => RandomBroadcast
  }

  /** `get_packet_control(type, index)`: the class of kind `k` in slot `i`. */
  function GetPacketControl(d: Pair<DirectedConfig>, k: PktType, i: Slot): PktCtrl {
    var slot := d.Get(i);
    match k
    case Unicast => slot.unicast
    case Multicast => slot.multicast
    case Broadcast => slot.broadcast
  }

  /** A store through the pointer `get_packet_control(k, i)` returns: only
      that class of that slot changes. */
  function SetPacketControl(d: Pair<DirectedConfig>, k: PktType, i: Slot, c: PktCtrl): (d': Pair<DirectedConfig>)
    ensures GetPacketControl(d', k, i) == c
    ensures forall k': PktType, i': Slot :: (k', i') != (k, i) ==> GetPacketControl(d', k', i') == GetPacketControl(d, k', i')
    ensures d'.Get(Other(i)) == d.Get(Other(i))
    ensures d'.Get(i).rateFactor == d.Get(i).rateFactor
    ensures d'.Get(i).unicastMac == d.Get(i).unicastMac && d'.Get(i).multicastMac == d.Get(i).multicastMac
  {
    var slot := d.Get(i);
    var slot' := match k
      case Unicast => slot.(unicast := c)
      case Multicast => slot.(multicast := c)
      case Broadcast => slot.(broadcast := c);
    d.Set(i, slot')
  }

  /** `get_unicast_mac_address(i, …)`. */
  function GetUnicastMac(d: Pair<DirectedConfig>, i: Slot): Mac {
    d.Get(i).unicastMac
  }

  /** `get_multicast_mac_address(i, …)`. */
  function GetMulticastMac(d: Pair<DirectedConfig>, i: Slot): Mac {
    d.Get(i).multicastMac
  }

  /** `set_unicast_mac_address(i, m)`: a later get at `i` yields `m`; the
      other slot, the multicast table and the classes keep their values. */
  function SetUnicastMac(d: Pair<DirectedConfig>, i: Slot, m: Mac): (d': Pair<DirectedConfig>)
    ensures GetUnicastMac(d', i) == m
    ensures GetUnicastMac(d', Other(i)) == GetUnicastMac(d, Other(i))
    ensures forall j: Slot :: GetMulticastMac(d', j) == GetMulticastMac(d, j)
    ensures forall k: PktType, j: Slot :: GetPacketControl(d', k, j) == GetPacketControl(d, k, j)
    ensures d'.Get(Other(i)) == d.Get(Other(i)) && d'.Get(i).rateFactor == d.Get(i).rateFactor
  {
    d.Set(i, d.Get(i).(unicastMac := m))
  }

  /** `set_multicast_mac_address(i, m)`, the same for the multicast table. */
  function SetMulticastMac(d: Pair<DirectedConfig>, i: Slot, m: Mac): (d': Pair<DirectedConfig>)
    ensures GetMulticastMac(d', i) == m
    ensures GetMulticastMac(d', Other(i)) == GetMulticastMac(d, Other(i))
    ensures forall j: Slot :: GetUnicastMac(d', j) == GetUnicastMac(d, j)
    ensures forall k: PktType, j: Slot :: GetPacketControl(d', k, j) == GetPacketControl(d, k, j)
    ensures d'.Get(Other(i)) == d.Get(Other(i)) && d'.Get(i).rateFactor == d.Get(i).rateFactor
  {
    d.Set(i, d.Get(i).(multicastMac := m))
  }

  /** The `packet_types` list of a node. */
  function PacketTypes(id: StateId): seq<ClassRef> {
    match id
    case Initial => []
    case UnicastOnly => [RandomRef(Unicast)]
    case MulticastOnly => [RandomRef(Multicast)]
    case BroadcastOnly => [RandomRef(Broadcast)]
    case DirectedNode(i) => [DirectedRef(Unicast, i), DirectedRef(Multicast, i), DirectedRef(Broadcast, i)]
  }

  /** The `weight` field of a node: the weight it carries when it appears in
      another node's successor list. Every node has weight 1. */
  function NodeWeight(id: StateId): I32 {
    1
  }

  /** The `next` list of a node. */
  function Successors(id: StateId): seq<StateId> {
    match id
    case Initial => [UnicastOnly, MulticastOnly, BroadcastOnly]
    case UnicastOnly => [Initial]
    case MulticastOnly => [Initial]
    case BroadcastOnly => [Initial]
    case DirectedNode(i) => [DirectedNode(i)]
  }

  function Resolve(t: Tables, r: ClassRef): PktCtrl {
    match r
    case RandomRef(k) => RandomClass(k)
    case DirectedRef(k, i) => GetPacketControl(t.directed, k, i)
  }

  /** The classes a node currently offers, in list order. */
  function Alternatives(t: Tables, id: StateId): (cs: seq<PktCtrl>)
    ensures |cs| == |PacketTypes(id)|
  {
    var refs := PacketTypes(id);
    seq(|refs|, j requires 0 <= j < |refs| => Resolve(t, refs[j]))
  }

  function ClassWeights(cs: seq<PktCtrl>): (ws: seq<I32>)
    ensures |ws| == |cs|
    ensures forall j :: 0 <= j < |cs| ==> ws[j] == cs[j].weight
  {
    seq(|cs|, j requires 0 <= j < |cs| => cs[j].weight)
  }

  function NodeWeights(ids: seq<StateId>): (ws: seq<I32>)
    ensures |ws| == |ids|
    ensures forall j :: 0 <= j < |ids| ==> ws[j] == NodeWeight(ids[j])
  {
    seq(|ids|, j requires 0 <= j < |ids| => NodeWeight(ids[j]))
  }

  /** The length drawn for a chosen class with draw `r`: `size_min` when the
      bounds agree, otherwise `size_min + r mod (size_max - size_min)` in
      unsigned arithmetic. */
  function PacketLength(c: PktCtrl, r: U32): (len: U32)
    ensures c.sizeMin == c.sizeMax ==> len == c.sizeMin
    ensures c.sizeMin < c.sizeMax ==> c.sizeMin <= len < c.sizeMax
    ensures c.sizeMin < c.sizeMax && r < c.sizeMax - c.sizeMin ==> len == c.sizeMin + r
    ensures c.sizeMin < c.sizeMax ==>
              r == (c.sizeMax - c.sizeMin) * (r / (c.sizeMax - c.sizeMin)) + (len - c.sizeMin)
  {
    if c.sizeMax == c.sizeMin then c.sizeMin
    else
      var span := ToU32(c.sizeMax - c.sizeMin);
      var x := r % span;
      ModuloBelow(r, span);
      ToU32(x + c.sizeMin)
  }

  /** The length depends on the draw only modulo the span of sizes: every
      draw gives `size_min` plus the draw reduced by the span. */
  lemma PacketLengthPeriodic(c: PktCtrl, r: U32)
    requires c.sizeMin < c.sizeMax
    ensures PacketLength(c, r) == PacketLength(c, r % (c.sizeMax - c.sizeMin))
    ensures PacketLength(c, r) == c.sizeMin + r % (c.sizeMax - c.sizeMin)
  {
    var span := c.sizeMax - c.sizeMin;
    ModuloBelow(r, span);
    ModuloBelow(r % span, span);
  }

  lemma ModuloBelow(x: nat, m: nat)
    requires m > 0
    ensures x % m < m
    ensures x < m ==> x % m == x
  {
  }

  /** `choose_packet_type` at node `id`, with `r1` the draw that picks the
      class and `r2` the draw that picks the length. */
  function ChoosePacketType(t: Tables, id: StateId, r1: U32, r2: U32): (c: Option<Chosen>)
    ensures c.None? <==> Selector.Total(ClassWeights(Alternatives(t, id))) == 0
    ensures c.Some? ==> Selector.Pick(ClassWeights(Alternatives(t, id)), r1) == Some(c.value.index)
    ensures c.Some? ==> c.value.index < |PacketTypes(id)|
                        && c.value.ctrl == Alternatives(t, id)[c.value.index]
                        && c.value.ctrl.weight != 0
    ensures c.Some? ==> c.value.len == PacketLength(c.value.ctrl, r2)
    ensures id == Initial ==> c.None?
  {
    var cs := Alternatives(t, id);
    match Selector.Pick(ClassWeights(cs), r1)
    case None => None
    case Some(j) => Some(Chosen(j, cs[j], PacketLength(cs[j], r2)))
  }

  /** `choose_next` at node `id` with draw `r`. Every node of the graph has
      a successor of weight 1, so the branch that returns no node is never
      taken and the result is a node. */
  function ChooseNext(id: StateId, r: U32): (n: StateId)
    ensures id == Initial ==> n == Successors(Initial)[r % 3]
    ensures id in {UnicastOnly, MulticastOnly, BroadcastOnly} ==> n == Initial
    ensures id.DirectedNode? ==> n == id
  {
    var next := Successors(id);
    var ws := NodeWeights(next);
    UnitWeightsSum(ws, |ws|);
    var j := Selector.Pick(ws, r).value;
    assert j == 0 || id == Initial;
    assert id == Initial ==> j == r % 3 by {
      if id == Initial {
        UniformPickOfThree(ws, r);
      }
    }
    next[j]
  }

  /** With every weight 1 the running sum counts the entries. */
  lemma {:induction false} UnitWeightsSum(ws: seq<I32>, n: nat)
    requires n <= |ws|
    requires forall j :: 0 <= j < |ws| ==> ws[j] == 1
    ensures Selector.PrefixSum(ws, n) == n
    ensures n == |ws| && n < TwoTo32 ==> Selector.Total(ws) == n
    decreases n
  {
    if n > 0 {
      UnitWeightsSum(ws, n - 1);
    }
  }

  /** Three entries of weight 1: the pick is the draw reduced modulo 3. */
  lemma UniformPickOfThree(ws: seq<I32>, r: U32)
    requires ws == [1, 1, 1]
    ensures Selector.Pick(ws, r) == Some(r % 3)
  {
    UnitWeightsSum(ws, 1);
    UnitWeightsSum(ws, 2);
    UnitWeightsSum(ws, 3);
    Selector.PickIsBand(ws, r, r % 3);
  }

  predicate IsRandomState(id: StateId) {
    !id.DirectedNode?
  }

  /** The single-kind node of random mode that sends kind `k`. */
  function BurstNode(k: PktType): (id: StateId)
    ensures IsRandomState(id) && id != Initial
    ensures PacketTypes(id) == [RandomRef(k)]
  {
    match k
    case Unicast => UnicastOnly
    case Multicast => MulticastOnly
    case Broadcast => BroadcastOnly
  }

  /** `unicast_only`, `multicast_only` and `broadcast_only` offer only their
      own kind's random-mode class, so whatever the draws they send that
      class, with the length the second draw gives. */
  lemma BurstNodeChoosesOwnKind(t: Tables, k: PktType, r1: U32, r2: U32)
    ensures Alternatives(t, BurstNode(k)) == [RandomClass(k)]
    ensures ChoosePacketType(t, BurstNode(k), r1, r2) == Some(Chosen(0, RandomClass(k), PacketLength(RandomClass(k), r2)))
  {
    var cs := Alternatives(t, BurstNode(k));
    assert cs == [RandomClass(k)];
    var ws := ClassWeights(cs);
    assert Selector.PrefixSum(ws, 1) == ws[0] == RandomClass(k).weight;
    Selector.PickIsBand(ws, r1, 0);
    Selector.PrefixSumMonotone(ws, 0, 1);
  }

  /** Follows `choose_next` through the draws `rs`. */
  function Walk(id: StateId, rs: seq<U32>): StateId
    decreases |rs|
  {
    if rs == [] then id else Walk(ChooseNext(id, rs[0]), rs[1..])
  }

  /** The position of a burst state in the successor list of `Initial`. */
  function BurstIndex(t: StateId): (k: nat)
    ensures k < 3
  {
    if t == UnicastOnly then 0 else if t == MulticastOnly then 1 else 2
  }

  /** Draws that lead from one random-mode state to another. */
  function Route(s: StateId, t: StateId): seq<U32> {
    if s == t then []
    else if s == Initial then [BurstIndex(t)]
    else if t == Initial then [0]
    else [0, BurstIndex(t)]
  }

  lemma EnterBurst(t: StateId)
    requires IsRandomState(t) && t != Initial
    ensures Walk(Initial, [BurstIndex(t)]) == t
  {
    var k := BurstIndex(t);
    assert k % 3 == k;
    assert [k][1..] == [];
  }

  /** The random-mode graph is irreducible: every random state reaches every
      other one, in at most two transitions. */
  lemma RandomGraphIrreducible(s: StateId, t: StateId)
    requires IsRandomState(s) && IsRandomState(t)
    ensures |Route(s, t)| <= 2
    ensures Walk(s, Route(s, t)) == t
  {
    if s == t {
    } else if s == Initial {
      EnterBurst(t);
    } else if t == Initial {
      assert [0 as U32][1..] == [];
    } else {
      var rs := Route(s, t);
      assert rs[1..] == [BurstIndex(t)];
      EnterBurst(t);
    }
  }

  /** A directed node only ever returns to itself, whatever the draws. */
  lemma {:induction false} DirectedNodeIsClosed(i: Slot, rs: seq<U32>)
    ensures Walk(DirectedNode(i), rs) == DirectedNode(i)
    decreases |rs|
  {
    if rs != [] {
      DirectedNodeIsClosed(i, rs[1..]);
    }
  }

  /** From a random-mode state, `choose_next` never leaves random mode. */
  lemma {:induction false} RandomStatesAreClosed(id: StateId, rs: seq<U32>)
    requires IsRandomState(id)
    ensures IsRandomState(Walk(id, rs))
    decreases |rs|
  {
    if rs != [] {
      RandomStatesAreClosed(ChooseNext(id, rs[0]), rs[1..]);
    }
  }

  /** Every length of a class's range can be drawn. */
  lemma EveryLengthReachable(c: PktCtrl, len: U32)
    requires c.sizeMin <= len < c.sizeMax
    ensures PacketLength(c, (len - c.sizeMin) as U32) == len
  {
  }

  /** A class as the host validator admits it: its own kind, a weight in
      0..100, and when the weight is not 0, 60 <= min <= max <= 1518. */
  predicate ValidClass(c: PktCtrl, k: PktType) {
    && c.kind == k
    && 0 <= c.weight <= 100
    && (c.weight != 0 ==> 60 <= c.sizeMin <= c.sizeMax <= 1518)
  }

  predicate ValidSlot(d: DirectedConfig) {
    ValidClass(d.unicast, Unicast) && ValidClass(d.multicast, Multicast) && ValidClass(d.broadcast, Broadcast)
  }

  predicate ValidTables(t: Tables) {
    ValidSlot(t.directed.zero) && ValidSlot(t.directed.one)
  }

  /** The initialisers of the directed tables satisfy the host's bounds. */
  lemma InitialTablesValid()
    ensures ValidTables(InitialTables)
  {
  }

  /** Storing a valid class keeps the tables valid. */
  lemma SetPacketControlKeepsValid(t: Tables, k: PktType, i: Slot, c: PktCtrl)
    requires ValidTables(t) && ValidClass(c, k)
    ensures ValidTables(t.(directed := SetPacketControl(t.directed, k, i, c)))
  {
    var d' := SetPacketControl(t.directed, k, i, c);
    forall k': PktType, j: Slot
      ensures ValidClass(GetPacketControl(d', k', j), k')
    {
      if (k', j) != (k, i) {
        assert ValidSlot(t.directed.Get(j));
      }
    }
    assert ValidSlot(d'.Get(0)) by {
      assert d'.Get(0).unicast == GetPacketControl(d', Unicast, 0);
      assert d'.Get(0).multicast == GetPacketControl(d', Multicast, 0);
      assert d'.Get(0).broadcast == GetPacketControl(d', Broadcast, 0);
    }
    assert ValidSlot(d'.Get(1)) by {
      assert d'.Get(1).unicast == GetPacketControl(d', Unicast, 1);
      assert d'.Get(1).multicast == GetPacketControl(d', Multicast, 1);
      assert d'.Get(1).broadcast == GetPacketControl(d', Broadcast, 1);
    }
  }

  /** The classes a directed node offers are its slot's three classes. */
  lemma DirectedAlternatives(t: Tables, i: Slot)
    ensures var slot := t.directed.Get(i);
            Alternatives(t, DirectedNode(i)) == [slot.unicast, slot.multicast, slot.broadcast]
  {
  }

  /** Three weights in 0..100 never wrap. */
  lemma ThreeSmallWeights(ws: seq<I32>)
    requires |ws| == 3 && forall j :: 0 <= j < 3 ==> 0 <= ws[j] <= 100
    ensures Selector.SmallWeights(ws)
    ensures Selector.PrefixSum(ws, 3) == ws[0] + ws[1] + ws[2]
  {
    assert Selector.PrefixSum(ws, 1) == ws[0];
    assert Selector.PrefixSum(ws, 2) == ws[0] + ws[1];
  }

  /** The alternatives of a directed node of valid tables are valid classes
      of the three kinds, and their weights are small. */
  lemma DirectedClassesValid(t: Tables, i: Slot)
    requires ValidTables(t)
    ensures var cs := Alternatives(t, DirectedNode(i));
            && |cs| == 3
            && ValidClass(cs[0], Unicast) && ValidClass(cs[1], Multicast) && ValidClass(cs[2], Broadcast)
            && Selector.SmallWeights(ClassWeights(cs))
  {
    DirectedAlternatives(t, i);
    var cs := Alternatives(t, DirectedNode(i));
    assert ValidSlot(t.directed.Get(i));
    ThreeSmallWeights(ClassWeights(cs));
  }

  /** Selection from a directed node of valid tables: the class of the slot
      whose band holds the reduced draw, never a weight-0 class, and a length
      within that class's range. */
  lemma DirectedChoiceIsValid(t: Tables, i: Slot, r1: U32, r2: U32)
    requires ValidTables(t)
    ensures var ws := ClassWeights(Alternatives(t, DirectedNode(i)));
            var c := ChoosePacketType(t, DirectedNode(i), r1, r2);
            && Selector.SmallWeights(ws)
            && (c.None? <==> Selector.PrefixSum(ws, 3) == 0)
            && (c.Some? ==>
                  && c.value.ctrl == GetPacketControl(t.directed, c.value.ctrl.kind, i)
                  && 1 <= c.value.ctrl.weight <= 100
                  && Selector.InBand(ws, c.value.index, r1 % Selector.PrefixSum(ws, 3))
                  && 60 <= c.value.len <= 1518
                  && (c.value.ctrl.sizeMin == c.value.ctrl.sizeMax || c.value.len < c.value.ctrl.sizeMax))
  {
    DirectedClassesValid(t, i);
    var cs := Alternatives(t, DirectedNode(i));
    var ws := ClassWeights(cs);
    var c := ChoosePacketType(t, DirectedNode(i), r1, r2);
    Selector.PickIsBand(ws, r1, 0);
    if c.Some? {
      Selector.PickIsBand(ws, r1, c.value.index);
      DirectedClassIsStored(t, i, c.value.index);
    }
  }

  /** Each alternative of a directed node is the stored class of its kind,
      and valid for it. */
  lemma DirectedClassIsStored(t: Tables, i: Slot, j: nat)
    requires ValidTables(t) && j < 3
    ensures var c := Alternatives(t, DirectedNode(i))[j];
            c == GetPacketControl(t.directed, c.kind, i) && ValidClass(c, c.kind)
  {
    DirectedClassesValid(t, i);
    DirectedAlternatives(t, i);
  }
}
