/** The command vocabulary shared by the host console and the device
    (app_traffic_gen/src/traffic_ctlr_host_cmds.h): the command letters,
    and the fields of a packet-control command, which both sides read with
    the same scanners. */
module Commands {
  import opened Machine
  import opened CText

  // Command letters (`tester_command_t`).
  const CmdSetMacAddress: char := 'a'
  const CmdPktControl: char := 'c'
  const CmdSetGeneratorMode: char := 'm'
  const CmdPrintPktConfiguration: char := 'p'
  const CmdApplyCfg: char := 'e'
  const CmdSwapCfg: char := 's'
  const CmdLineRate: char := 'r'
  const CmdQuit: char := 'q'

  /** The fields of a 'c' command: type letter, weight, and the two sizes
      that follow the weight. */
  datatype PktCtrlFields = PktCtrlFields(kind: char, weight: I32, sizeMin: I32, sizeMax: I32)

  /** The fields as `get_next_char` and three `convert_atoi_substr` calls
      read them after the command letter. */
  function PktCtrlFieldsOf(buf: seq<char>): PktCtrlFields {
    var t := GetNextChar(buf, 1);
    var w := ConvertAtoiSubstr(buf, t.next);
    var lo := ConvertAtoiSubstr(buf, w.next);
    var hi := ConvertAtoiSubstr(buf, lo.next);
    PktCtrlFields(t.value, w.value, lo.value, hi.value)
  }

  /** A command written as "<cmd> <letter>…" yields its letter to
      `get_next_char`, with the cursor just after it. */
  lemma CommandLetter(s: seq<char>, letter: char)
    requires |s| >= 3 && s[1] == ' ' && s[2] == letter
    requires letter != NUL && !IsSpace(letter)
    ensures GetNextChar(s, 1) == Scanned(letter, 3)
  {
    assert ScanWhile(s, 2, IsSpace) == 2;
    assert ScanWhile(s, 1, IsSpace) == 2;
  }
}
