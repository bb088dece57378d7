# Ethernet traffic generator: a Dafny model of its core

The XMOS Ethernet traffic generator (`app_traffic_gen`) sends a stream of test frames. Its parts:

- **Generator.** The generator walks a small state graph. At every node it draws a packet class (unicast, multicast or broadcast) by weight, draws a frame length between the class's sizes, and writes a frame header. The header holds the addresses, a frame type per kind and a sequence counter.
- **Modes.** In random mode the walk runs over four fixed nodes. In directed mode it stays on one of two directed nodes, whose classes and MAC addresses live in a two-slot table.
- **Editing the configuration.** A host console validates typed commands and sends them to the device. On the device, `handle_host_data` edits the slot being written. `copy_over_config` together with the 'e' command publishes the edits, and so does swapping the slots' roles with 's'.

This project models that core as pure functions over immutable data. The modules follow the source files:

| module | file | what it holds |
|---|---|---|
| `Machine` | (shared) | 32-bit unsigned and signed ranges, wrap-around, bytes, MAC addresses, two-slot pairs |
| `CText` | `app_traffic_gen/src/util/c_utils.c` | C strings read through a NUL-padded cursor; `get_next_char`, `convert_atoi_substr` (`atoi` clamped to 32 bits), `strtol` base 16, `parse_mac_address` |
| `CTextFormat` | (model only) | rendering numbers and MAC addresses as text, plus the round trips through the scanners |
| `Commands` | `app_traffic_gen/src/traffic_ctlr_host_cmds.h` | the command letters and the fields of a packet-control command |
| `Selector` | `app_traffic_gen/src/packet_generator.c` | the weighted choice of `choose_packet_type` and `choose_next`, sums taken modulo 2^32 |
| `Generator` | `app_traffic_gen/src/packet_generator.c` | packet classes, the state graph, the directed tables, `choose_packet_type`, `choose_next` |
| `Frame` | `app_traffic_gen/src/packet_generator.c` | `gen_*_frame` and `fill_pkt_hdr`: the header bytes and the wrapping sequence counter |
| `Controller` | `app_traffic_gen/src/packet_controller.c` | `handle_host_data`, `copy_over_config`, the double-buffer invariant |
| `HostValidate` | `app_traffic_gen/host_controller/traffic_gen_controller.c` | `validate_pkt_ctrl_setting`, `validate_mode`, `validate_set_mac_address`, `validate_line_rate` |
| `Pipeline` | (model only) | host validation against device behaviour on the same text, and command texts rendered and read back |

Random numbers are parameters. Every `random_get_random_number` draw is an argument of type `U32`.

## Model

| member | source | states |
|---|---|---|
| Machine.ToU32 | app_traffic_gen/src/packet_generator.c:28-36 | the conversion to `unsigned` is congruent to its input modulo 2^32 and keeps values already in range |
| Machine.Clamp32 | app_traffic_gen/src/util/c_utils.c:27-44 | a value in the 32-bit signed range is kept; a non-negative value stays non-negative |
| CText.ScanWhile | app_traffic_gen/src/util/c_utils.c:17-25 | the scan stops at the first character outside the class, and every character skipped is in it |
| CText.GetNextChar | app_traffic_gen/src/util/c_utils.c:17-25 | the character returned is the first non-space character; the cursor ends just past it; everything skipped was white space |
| CText.ConvertAtoiSubstrReads | app_traffic_gen/src/util/c_utils.c:27-44 | on blank input the value is 0 and the cursor stays put; otherwise the value is `atoi` at the first non-space character, and the cursor moves past the token, which runs up to the next white space or NUL |
| CText.Atoi | app_traffic_gen/src/util/c_utils.c:27-44 | `atoi` at a token: a leading '-' gives a value of at most 0, anything else a value of at least 0, and a token with no digit after its optional sign reads as 0 |
| CText.ConvertAtoiSubstr | app_traffic_gen/src/util/c_utils.c:27-44 | definition only; what it reads is stated by `CText.ConvertAtoiSubstrReads` |
| CText.Strtol16 | app_traffic_gen/src/util/c_utils.c:46-80 | the cursor moves exactly when a hexadecimal number starts after the white space; the value is 0 when it does not move; the cursor stops just after the last hex digit |
| CText.ToByte | app_traffic_gen/src/util/c_utils.c:58-64 | storing an `int` into an `unsigned char` keeps its low eight bits (so -1 and 0x1ff both store 0xff) and keeps values 0..255 |
| CText.ParseMacFrom | app_traffic_gen/src/util/c_utils.c:46-80 | bytes outside the parsed fields keep their prior values; the count never drops below the start index or exceeds 6; a non-number where a field is expected is an error; a parsed field stores the low eight bits of the `strtol` value at its index, then ends cleanly at NUL, and is an error when the next non-space character is neither ':' nor NUL; parsing stops cleanly at the string's end or after six fields |
| CText.ParseMacAddress | app_traffic_gen/src/util/c_utils.c:46-80 | at most six fields are parsed; the fields past the count keep the caller's bytes; an empty string parses nothing without error; a text not starting with a hex number is an error; the first field stores its byte at index 0, and a following character other than ':' or NUL is an error |
| CTextFormat.Decimal | app_traffic_gen/host_controller/traffic_gen_controller.c:208 | the rendering of a number is a non-empty run of decimal digits |
| CTextFormat.DecimalNumeral | app_traffic_gen/src/util/c_utils.c:27-44 | the digit value of a rendered number is the number itself |
| CTextFormat.ReadDecimal | app_traffic_gen/src/util/c_utils.c:27-44 | `convert_atoi_substr` reads back a space-prefixed rendered number below 2^31 and stops right after it |
| CTextFormat.ReadHex2 | app_traffic_gen/src/util/c_utils.c:46-80 | base-16 `strtol` reads back a two-digit hex byte |
| CTextFormat.ParseOneFormattedField | app_traffic_gen/src/util/c_utils.c:50-78 | one loop iteration over "hh" stores the byte, then either ends at NUL or continues after the ':' |
| CTextFormat.Overlay | app_traffic_gen/src/util/c_utils.c:46-80 | the parsed bytes land at the field positions and nothing else in the address changes |
| CTextFormat.ParseFormattedFields | app_traffic_gen/src/util/c_utils.c:50-78 | parsing colon-separated hex bytes from any field index overlays exactly those bytes and counts them |
| CTextFormat.ParseFormattedMac | app_traffic_gen/src/util/c_utils.c:46-80 | round trip: the parse of a formatted address "hh:hh:hh:hh:hh:hh" is that address, with six fields and no error |
| CTextFormat.DashSeparatedMacRejected | app_traffic_gen/src/util/c_utils.c:58-77 | the device parser rejects "00-11-22-33-44-55" after storing its first byte (the host check hangs on the same address) |
| CTextFormat.ParseShortMac | app_traffic_gen/src/util/c_utils.c:46-80 | an address with fewer than six fields replaces only the leading bytes and reports how many |
| CTextFormat.FormatFieldsShape | app_traffic_gen/host_controller/traffic_gen_controller.c:170-187 | a formatted address alternates two hex digits with a colon |
| Commands.CommandLetter | app_traffic_gen/src/util/c_utils.c:17-25 | in "x y…" the letter after the command is read at index 2, with the cursor left at 3 |
| Commands.PktCtrlFieldsOf | app_traffic_gen/src/packet_controller.c:77-93 | definition only: the letter and the three numbers `handle_host_data` reads for 'c'; `Pipeline.FieldsOfReads` and `Pipeline.FieldsTextReads` state what they are for rendered text |
| Selector.FirstExceeding | app_traffic_gen/src/packet_generator.c:183-197 | the index returned is the first whose cumulative weight exceeds the draw; none is returned when no cumulative weight exceeds it |
| Selector.Pick | app_traffic_gen/src/packet_generator.c:170-200 | nothing is chosen exactly when the total weight is zero; a chosen class has non-zero weight, its band contains the reduced draw, and no earlier band does |
| Selector.PrefixSumMonotone | app_traffic_gen/src/packet_generator.c:175-178 | with non-negative weights the running sums never decrease |
| Selector.PickIsBand | app_traffic_gen/src/packet_generator.c:170-200 | for small non-negative weights, class i is chosen exactly when the draw modulo the total falls in [sum before i, sum through i) |
| Selector.CountSelectingIsClip | app_traffic_gen/src/packet_generator.c:182-187 | of the first n reduced draws, the number that select class i is the overlap of [0, n) with its band |
| Selector.PickCountsMatchWeights | app_traffic_gen/src/packet_generator.c:182-187 | over one full period of draws, each class is chosen exactly as many times as its weight |
| Generator.RandomClass | app_traffic_gen/src/packet_generator.c:68-70 | each random-mode class is of its kind, has a non-zero weight and a proper size range, and lies within the bounds the host validator enforces |
| Generator.GetPacketControl | app_traffic_gen/src/packet_generator.c:130-142 | definition only: the class of one kind in one slot; `Generator.SetPacketControl` states the get-after-set laws against it |
| Generator.GetUnicastMac | app_traffic_gen/src/packet_generator.c:150-158 | definition only; `Generator.SetUnicastMac` states the get-after-set laws against it |
| Generator.GetMulticastMac | app_traffic_gen/src/packet_generator.c:160-168 | definition only; `Generator.SetMulticastMac` states the get-after-set laws against it |
| Generator.PacketTypes | app_traffic_gen/src/packet_generator.c:72-77 | definition only: the `packet_types` list of each node; `Generator.BurstNode` and `Generator.DirectedAlternatives` state what the lists offer |
| Generator.NodeWeight | app_traffic_gen/src/packet_generator.c:85-128 | definition only: every node carries weight 1; `Generator.UniformPickOfThree` states its consequence |
| Generator.Successors | app_traffic_gen/src/packet_generator.c:79-128 | definition only: the `next` list of each node; `Generator.RandomStatesAreClosed`, `Generator.DirectedNodeIsClosed` and `Generator.RandomGraphIrreducible` state the graph's shape |
| Generator.SetPacketControl | app_traffic_gen/src/packet_generator.c:104-142 | writing through `get_packet_control` replaces one class of one slot; every other class, the other slot, the rate factor and the MAC tables are unchanged |
| Generator.SetUnicastMac | app_traffic_gen/src/packet_generator.c:150-158 | `set_unicast_mac_address` writes the unicast address of one slot; `get_*` sees it, and nothing else changes |
| Generator.SetMulticastMac | app_traffic_gen/src/packet_generator.c:160-168 | `set_multicast_mac_address` writes the multicast address of one slot; `get_*` sees it, and nothing else changes |
| Generator.Alternatives | app_traffic_gen/src/packet_generator.c:72-128 | a node has exactly as many candidate classes as its `packet_types` list |
| Generator.BurstNode | app_traffic_gen/src/packet_generator.c:75-77 | each single-kind node is a random-mode node other than `initial`, and its `packet_types` list holds only its own kind's random class |
| Generator.BurstNodeChoosesOwnKind | app_traffic_gen/src/packet_generator.c:91-101 | at `unicast_only`, `multicast_only` and `broadcast_only` the only candidate is the node's own random class, and `choose_packet_type` picks it, whatever the draws, with the length drawn from its sizes |
| Generator.DirectedAlternatives | app_traffic_gen/src/packet_generator.c:117-128 | a directed node offers exactly its slot's unicast, multicast and broadcast classes, in that order |
| Generator.PacketLength | app_traffic_gen/src/packet_generator.c:189-193 | equal sizes give that size; otherwise the length is at least `size_min`, below `size_max`, and differs from the draw by `size_min` plus a multiple of the span, so it is `size_min` plus the draw reduced by the span |
| Generator.PacketLengthPeriodic | app_traffic_gen/src/packet_generator.c:189-193 | for `size_min < size_max`, every draw gives `size_min + r mod (size_max - size_min)`, so draws equal modulo the span give the same length |
| Generator.ChoosePacketType | app_traffic_gen/src/packet_generator.c:170-200 | no class exactly when the node's weights sum to zero (always at `initial`); otherwise the class picked by weight from the node's list, with its length drawn by the second draw |
| Generator.ChooseNext | app_traffic_gen/src/packet_generator.c:202-224 | `initial` moves to one of the three single-kind nodes by the draw modulo 3; these nodes return to `initial`; a directed node stays where it is |
| Generator.UniformPickOfThree | app_traffic_gen/src/packet_generator.c:83-87 | three unit weights pick the draw modulo 3 |
| Generator.EnterBurst | app_traffic_gen/src/packet_generator.c:83-101 | every single-kind node is one step from `initial` |
| Generator.RandomGraphIrreducible | app_traffic_gen/src/packet_generator.c:79-101 | any random-mode node reaches any other in at most two steps |
| Generator.DirectedNodeIsClosed | app_traffic_gen/src/packet_generator.c:120-128 | a walk from a directed node never leaves it |
| Generator.RandomStatesAreClosed | app_traffic_gen/src/packet_generator.c:79-101 | a walk from a random-mode node stays among the random-mode nodes |
| Generator.EveryLengthReachable | app_traffic_gen/src/packet_generator.c:189-193 | every length in [`size_min`, `size_max`) is produced by some draw |
| Generator.SetPacketControlKeepsValid | app_traffic_gen/src/packet_generator.c:130-142 | storing a valid class keeps all tables valid |
| Generator.InitialTablesValid | app_traffic_gen/src/packet_generator.c:104-115 | the directed tables the device starts with are within the host validator's bounds: weights 0..100 and, where the weight is not 0, sizes ordered within 60..1518 |
| Generator.DirectedChoiceIsValid | app_traffic_gen/src/packet_generator.c:170-200 | with valid tables a directed node picks a stored class of its own slot, with weight 1..100, inside its band, and a length in 60..1518 below `size_max` unless the sizes are equal |
| Frame.FrameType | app_traffic_gen/src/packet_generator.c:38-66 | each kind's frame type fits the two-byte type field |
| Frame.KindOf | app_traffic_gen/src/packet_generator.c:38-66 | the three frame types are distinct, and each one identifies its kind |
| Frame.BigEndianRoundTrip | app_traffic_gen/src/packet_generator.c:28-36 | reading big-endian bytes back gives the value written |
| Frame.BigEndianOfValue | app_traffic_gen/src/packet_generator.c:28-36 | writing back the value of big-endian bytes gives the same bytes |
| Frame.SeqNumBytes | app_traffic_gen/src/packet_generator.c:31-34 | the four sequence bytes are the shifts `>> 24`, `>> 16`, `>> 8` and `>> 0`, each masked to a byte |
| Frame.ParseHeader | app_traffic_gen/src/packet_generator.h:16-22 | a header is read exactly when 18 bytes are there, and its type fits two bytes |
| Frame.ParseHeaderBytes | app_traffic_gen/src/packet_generator.h:16-22 | round trip: parsing the header bytes gives the header back |
| Frame.HeaderBytesOfParse | app_traffic_gen/src/packet_generator.h:16-22 | round trip: re-encoding a parsed header gives its 18 bytes back |
| Frame.HeaderBytes | app_traffic_gen/src/packet_generator.h:16-22 | the header is written as 18 bytes; `Frame.ParseHeaderBytes` is its inverse |
| Frame.GenFrame | app_traffic_gen/src/packet_generator.c:28-66 | unicast and multicast frames take the slot's table address and the source address; broadcast frames take the broadcast address twice; the type names the kind; the header carries the counter, which then advances modulo 2^32 and nothing else changes |
| Frame.GenFrames | app_traffic_gen/src/packet_generator.c:28-66 | one header per generated frame; `Frame.FrameSequenceNumbers` states the counter each carries |
| Frame.TablesAfterFrames | app_traffic_gen/src/packet_generator.c:28-36 | a run of frames changes only the counter, which advances by the run's length modulo 2^32 |
| Frame.FrameSequenceNumbers | app_traffic_gen/src/packet_generator.c:28-36 | frame j of a run carries the starting counter plus j modulo 2^32, whatever the kinds |
| Frame.ConsecutiveSequenceNumbers | app_traffic_gen/src/packet_generator.c:28-36 | consecutive frames carry consecutive counters, with 0xFFFFFFFF followed by 0 |
| Frame.FirstSequenceNumber | app_traffic_gen/src/packet_generator.c:28-35 | the first frame after start-up carries sequence number 1, the counter's initial value |
| Controller.InitialEngine | app_traffic_gen/src/packet_controller.c:23-26 | at start-up the write index is 1 and the read index 0, so the indices differ |
| Controller.SetGeneratorMode | app_traffic_gen/src/packet_controller.c:63-73 | 's', 'r' and 'd' set the silent, random and directed modes; any other letter changes nothing; only the mode can change |
| Controller.TypeLetter | app_traffic_gen/src/packet_controller.c:80-86 | exactly 'u', 'm' and 'b' name a packet kind |
| Controller.EditClass | app_traffic_gen/src/packet_controller.c:87-92 | the weight is always stored; the sizes are stored, converted to unsigned, only when the weight is non-zero |
| Controller.PktControl | app_traffic_gen/src/packet_controller.c:75-95 | a 'c' command edits the named kind's class in the write slot only; the slot's other classes, rate factor and both MAC addresses are unchanged; an unknown kind leaves everything as it was; the live slot and the mode are untouched |
| Controller.LineRate | app_traffic_gen/src/packet_controller.c:97-99 | an 'r' command stores the parsed factor, as unsigned, in the write slot only |
| Controller.SetMacAddress | app_traffic_gen/src/packet_controller.c:101-115 | an 'a' command with a well-formed address writes the unicast or multicast address of the write slot; a parse error or another letter changes nothing |
| Controller.CopyOverConfig | app_traffic_gen/src/packet_controller.c:28-51 | the source slot is unchanged by the copy |
| Controller.CopyOverConfigCopiesSlot | app_traffic_gen/src/packet_controller.c:28-51 | after the copy both slots hold the source slot's classes, rate factor and addresses |
| Controller.SwapCfg | app_traffic_gen/src/packet_controller.c:172-185 | the slot that was written becomes the read slot and its rate factor the live one; the write index moves to the other slot; random mode restarts at `initial`, directed mode moves to the new read slot's node, and silent mode keeps its node |
| Controller.ApplyCfg | app_traffic_gen/src/packet_controller.c:167-185 | after 'e' both slots equal the edited slot and the roles are swapped; the edited slot's rate factor becomes live; random mode restarts at `initial`, directed mode moves to the new read slot's node, silent mode keeps its node; the mode, source address and sequence counter are kept |
| Controller.HandleHostData | app_traffic_gen/src/packet_controller.c:57-191 | the indices stay apart; 'p', 'q' and unknown commands change nothing; only 'm' changes the mode; editing commands leave the live slot, and the slot not being written, untouched |
| Controller.SwapTwice | app_traffic_gen/src/packet_controller.c:172-185 | two swaps restore the indices and the tables, and make the old read slot's rate factor live |
| Controller.EditsKeepLiveSlot | app_traffic_gen/src/packet_controller.c:57-191 | any sequence of edit commands leaves the slot being generated from untouched |
| Controller.RunKeepsIndicesApart | app_traffic_gen/src/packet_controller.c:57-191 | any command sequence keeps the read and write indices different |
| Controller.Run | app_traffic_gen/src/packet_controller.c:57-191 | definition only: commands handled one after another; `Controller.EditsKeepLiveSlot`, `Controller.RunKeepsIndicesApart` and `Pipeline.RunKeepsTablesValid` state what runs preserve |
| Controller.SwapPublishesEdits | app_traffic_gen/src/packet_controller.c:172-185 | after edits, a swap makes exactly the edited slot the live one, and the slot that was live before the edits, which they left untouched, becomes the one the next edits go to |
| HostValidate.ValidatePktCtrlSetting | app_traffic_gen/host_controller/traffic_gen_controller.c:96-143 | a 'c' command is accepted exactly when the type is u, m or b, the weight is 0..100, and (for a non-zero weight) 60 <= min <= max <= 1518 |
| HostValidate.ValidateMode | app_traffic_gen/host_controller/traffic_gen_controller.c:145-156 | a mode command is accepted exactly when its letter is s, r or d |
| HostValidate.ValidateSetMacAddress | app_traffic_gen/host_controller/traffic_gen_controller.c:158-195 | a type other than u or m is rejected before the address is scanned |
| HostValidate.MacScan | app_traffic_gen/host_controller/traffic_gen_controller.c:170-187 | the scan loop counts at most one colon per character it passes, and when it makes no progress it sits on a character that is not the terminator; `HostValidate.MacScanMeaning` states what it accepts |
| HostValidate.MacScanMeaning | app_traffic_gen/host_controller/traffic_gen_controller.c:170-187 | the scan loop ends in error exactly at a run of three or more alphanumerics, ends cleanly at NUL having counted the colons, and otherwise never returns |
| HostValidate.ValidateSetMacAddressMeaning | app_traffic_gen/host_controller/traffic_gen_controller.c:158-195 | an address is accepted exactly when its text, up to the end, has no token longer than two characters and has five colons; the check never returns exactly when the text stops on a character it cannot pass |
| HostValidate.DashSeparatedMacLoops | app_traffic_gen/host_controller/traffic_gen_controller.c:170-187 | "a u 00-11-22-33-44-55" makes the scan loop run forever |
| HostValidate.ValidateSetMacAddressTotal | app_traffic_gen/host_controller/traffic_gen_controller.c:158-195 | the corrected check always returns; it accepts exactly the texts the original accepts, and rejects those on which the original hangs |
| HostValidate.ValidateLineRate | app_traffic_gen/host_controller/traffic_gen_controller.c:197-212 | a rate is accepted exactly when a number was read and, as unsigned, is at most 100 |
| HostValidate.LineRateAcceptsZero | app_traffic_gen/host_controller/traffic_gen_controller.c:201-207 | "r 0" is accepted, although its delay factor divides by zero |
| HostValidate.ValidateLineRateNonZero | app_traffic_gen/host_controller/traffic_gen_controller.c:197-212 | the corrected check accepts exactly the rates 1..100 |
| Pipeline.AcceptedPktControlKeepsTablesValid | app_traffic_gen/src/packet_controller.c:75-95 | a 'c' command the host accepts keeps every class within the validator's bounds, and stores the weight, plus the sizes when the weight is non-zero |
| Pipeline.SameClassesKeepValid | app_traffic_gen/src/packet_generator.c:104-142 | validity of the tables depends only on the six classes `get_packet_control` reaches |
| Pipeline.LineRateKeepsClasses | app_traffic_gen/src/packet_controller.c:97-99 | 'r' changes no class of either slot |
| Pipeline.HandleHostDataKeepsValid | app_traffic_gen/src/packet_controller.c:57-191 | every command the host lets through, that is every command except a 'c' its validator rejects, keeps the tables within the validator's bounds |
| Pipeline.RunKeepsTablesValid | app_traffic_gen/src/packet_controller.c:57-191 | any run of such commands keeps the tables valid |
| Pipeline.ReachableTablesValid | app_traffic_gen/src/packet_generator.c:104-115 | every configuration reached from start-up through such commands has valid tables, so every directed choice made in it is within the bounds |
| Pipeline.ModeNamed | app_traffic_gen/src/packet_controller.c:63-73 | exactly 's', 'r' and 'd' name a mode |
| Pipeline.ModeValidationAgrees | app_traffic_gen/host_controller/traffic_gen_controller.c:145-156 | the host accepts an 'm' line exactly when its first non-space character after the command is s, r or d; of the line, only the three bytes `xscope_ep_request_upload(sockfd, 3, buffer)` sends reach the device, which sets that mode when the letter lies within them (and changes nothing for a rejected line), and changes nothing when white space pushes the letter past them |
| Pipeline.Upload | app_traffic_gen/host_controller/traffic_gen_controller.c:236-256 | the uploaded bytes are a prefix of the typed line of at most the requested length, and read the same as the line at every position below that length |
| Pipeline.ScanWhileAgrees | app_traffic_gen/src/util/c_utils.c:17-25 | a white-space scan that stops inside the uploaded bytes stops at the same place on the device as on the host |
| Pipeline.ModeLetterCutOff | app_traffic_gen/host_controller/traffic_gen_controller.c:236-239 | the host accepts "m  d", but the device, receiving "m  ", keeps its mode |
| Pipeline.ModeWholeLineAgrees | app_traffic_gen/host_controller/traffic_gen_controller.c:145-156 | uploaded through its terminator, an 'm' line sets exactly the mode the host accepted, and a rejected line changes nothing |
| Pipeline.KindLetter | app_traffic_gen/src/packet_controller.c:80-86 | each kind's letter is read back as that kind |
| Pipeline.FieldsOfReads | app_traffic_gen/src/packet_controller.c:78-80 | when the scanners read a letter and three numbers, those are the command's fields |
| Pipeline.FieldsTextReads | app_traffic_gen/src/util/c_utils.c:17-44 | "c k w min max" rendered from numbers below 2^31 is read back field by field |
| Pipeline.PktControlRoundTrip | app_traffic_gen/host_controller/traffic_gen_controller.c:96-143 | for any text whose fields read as k, w, min, max: the host accepts it exactly when w <= 100 and (w = 0 or 60 <= min <= max <= 1518); the device stores `EditClass` of the old class with those values |
| Pipeline.LineRateTextStoresFactor | app_traffic_gen/src/packet_controller.c:97-99 | the text "r f" the host sends makes the device store f in the write slot, leaving the read slot alone |
| Pipeline.MacTextAccepted | app_traffic_gen/host_controller/traffic_gen_controller.c:158-195 | the host accepts every formatted address after 'a u' or 'a m' |
| Pipeline.MacTextParses | app_traffic_gen/src/packet_controller.c:101-115 | the device reads the letter and parses the same formatted address back, with six fields and no error |
| Pipeline.MacTextStored | app_traffic_gen/src/packet_controller.c:101-115 | sending a formatted address stores exactly that address in the write slot's unicast or multicast table |
| Pipeline.AddressStored | app_traffic_gen/src/packet_controller.c:101-115 | any 'a' command whose letter reads as u or m and whose address parses cleanly stores that address in the write slot's table of that kind |
| Pipeline.ApplyDrivesDirectedChoice | app_traffic_gen/src/packet_controller.c:167-170 | in directed mode, after 'e' the generator sits on the read slot's node, chooses among exactly the edited slot's classes, and runs at its rate factor |

## Left out

- VLAN fields of `pkt_ctrl_t` and `packet_data_vlan_t`: nothing in the core reads them.
- The `delay` word of `packet_data_t`, the buffer pool (`buffers.h`), frame transmission (`send_ether_frame`) and the channels: these are I/O and concurrency. The header is modelled from `dest_mac` onwards.
- `random_get_random_number` and the generator's seed: every draw is a parameter.
- The floating-point rate conversion in `validate_line_rate` (`100.0/rate - 1`, scaled by 256, cast to `int`) and its `sprintf`. The model stores whatever factor the device parses; `Pipeline.LineRateTextStoresFactor` starts from the rendered factor.
- The console thread, `main`, xscope hooks, `tolower` of the typed line, usage and debug printing, and the 'p' command's print-out ('p' is modelled as changing nothing).
- `choose_next`'s NULL result (zero total weight) and the fall-through `*len = 0` of `choose_packet_type`: no node of the fixed graph reaches them. `ChooseNext` returns a node, and the chosen-class result carries the length.
- Controller.PktControl: a type letter other than u, m or b leaves `pkt_type` uninitialised in C, which is undefined behaviour. The model changes nothing, and the host validator never sends such a letter.
- Controller.InitialEngine: the generator mode, the current node and the live rate factor start in the caller's variables, so they are parameters.
- Pipeline.PktControlRoundTrip: stated over any text whose scanners return the four fields. For rendered decimal text, `Pipeline.FieldsTextReads` establishes those reads.
- The host's own copies of `get_next_char` and `convert_atoi_substr` (traffic_gen_controller.c:66-94) have the same text as the device's, so one definition serves both. That definition clamps `atoi` to 32 bits as on the device; on a host where `atoi` overflows differently (overflow is undefined in C) a numeral of 2^31 or more may read differently on the two sides.
- Pipeline.AcceptedPktControlKeepsTablesValid: holds for texts whose numerals the host and the device read alike. A numeral of 2^31 or more, which `atoi` may read differently on a 64-bit host, is outside what it promises. `Pipeline.PktControlRoundTrip` states the agreement for values below 2^31.
- The device's receive buffer beyond the uploaded bytes: `handle_host_data` ignores `bytes_read` and scans every command up to a NUL (packet_controller.c:57-61). The host sends the NUL only with 'r' (traffic_gen_controller.c:211); 'c' and 'a' go out as the typed line without one (traffic_gen_controller.c:243, 254), and 'm' as its first three bytes only (traffic_gen_controller.c:238), which `Pipeline.Upload` models. The receive code is not part of this model, so a command is modelled as the uploaded bytes with NUL read past their end, which assumes the buffer holds zeros there.
- Interleaving of `handle_host_data` with the generator thread: commands are modelled as applied one at a time, between frames.

## Findings

| source | as written | input that shows it | evidently intended | confidence | as-written member | corrected member |
|---|---|---|---|---|---|---|
| app_traffic_gen/host_controller/traffic_gen_controller.c:204-207 | the range check lets a line rate of 0 through, after `100.0/0` has been computed and converted to `int` | "r 0" | accept rates 1..100 only | medium, not executed | HostValidate.LineRateAcceptsZero | HostValidate.ValidateLineRateNonZero |
| app_traffic_gen/host_controller/traffic_gen_controller.c:170-187 | the scan loop advances only over white space, alphanumerics and ':', so a text that stops on any other character before NUL loops forever | "a u 00-11-22-33-44-55" | reject such an address | high, not executed | HostValidate.DashSeparatedMacLoops | HostValidate.ValidateSetMacAddressTotal |
| app_traffic_gen/host_controller/traffic_gen_controller.c:236-239 | the host validates the whole 'm' line but uploads only its first three bytes, so a mode letter after extra white space is accepted and never reaches the device | "m  d" | upload the line through its terminator, as for 'r', so that the device sets every mode the host accepts | high, not executed | Pipeline.ModeLetterCutOff | Pipeline.ModeWholeLineAgrees |
