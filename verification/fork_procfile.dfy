/** The `/proc/fork_info` iterator: a one-record stream over the most recent
    fork event, printed as a single labelled line. */
module ForkProcfile {
  import opened Wrappers
  import opened CTypes
  import opened SeqFile
  import opened ForkRecord
  import opened Numerals
  import opened Printf

  /** What `get_last_fork_record` yields: None where it returns -1 (no event
      captured), otherwise the record it copies into the module's slot. */
  type Backend = Option<ForkInfo>

  /** Start asks the backend for the last fork record; `record_number` is neither read nor written. */
  function Start(backend: Backend, recordNumber: nat): (r: Step<ForkInfo>)
    ensures r.pos == recordNumber
    ensures r.item.None? <==> backend.None?
    ensures r.item.Some? ==> r.item.value == backend.value
  {
    Step(recordNumber, backend)
  }

  /** The source's next has an empty body; it is completed here as "end of sequence",
      leaving `record_number` untouched as the empty body does. */
  function Next(backend: Backend, recordNumber: nat): (r: Step<ForkInfo>)
    ensures r.pos == recordNumber
    ensures r.item.None?
  {
    Step(recordNumber, None)
  }

  /** Stop holds no resources: the record slot and the position are left as they were. */
  function Stop(backend: Backend, recordNumber: nat): (r: (Backend, nat))
    ensures r.0 == backend && r.1 == recordNumber
  {
    (backend, recordNumber)
  }

  /** Start's answer depends on the backend alone, never on the position it is handed. */
  lemma StartIgnoresPosition(backend: Backend, p: nat, q: nat)
    ensures Start(backend, p).item == Start(backend, q).item
  {
  }

  const FlagsLabel := "flags = 0x"
  const UserLabel := ", user = "
  const PpidLabel := ", ppid = "
  const CpidLabel := ", cpid = "
  const CommLabel := ", comm = "
  const ReturnLabel := ", return = "

  /** The field widths of the format string. */
  const FlagsWidth: nat := 8
  const IdWidth: nat := 5
  const CommWidth: nat := 8

  /** The line `show` prints for a record: the format
      "flags = 0x%08lX, user = %5d, ppid = %5d, cpid = %5d, comm = %8s, return = %ld\n". */
  function Show(info: ForkInfo): (r: string)
    ensures FlagsLabel <= r
    ensures r[|r| - 1] == '\n'
  {
    FlagsLabel + HexZeroPadded(info.cloneFlags, FlagsWidth)
    + UserLabel + DecimalField(info.parentUid, IdWidth)
    + PpidLabel + DecimalField(info.parentPid, IdWidth)
    + CpidLabel + DecimalField(info.childPid, IdWidth)
    + CommLabel + StringField(info.commandName, CommWidth)
    + ReturnLabel + DecimalField(info.childReturn, 0)
    + "\n"
  }

  /** Each field's printed width: at least the format's minimum, and at most
      what the widest value of its C type needs. */
  lemma FieldWidths(info: ForkInfo)
    ensures FlagsWidth <= |HexZeroPadded(info.cloneFlags, FlagsWidth)| <= 16
    ensures |DecimalField(info.parentUid, IdWidth)| == IdWidth
    ensures IdWidth <= |DecimalField(info.parentPid, IdWidth)| <= 11
    ensures IdWidth <= |DecimalField(info.childPid, IdWidth)| <= 11
    ensures CommWidth <= |StringField(info.commandName, CommWidth)| <= CommandNameSize
    ensures 1 <= |DecimalField(info.childReturn, 0)| <= 20
  {
    PowBounds();
    DigitsLength(info.cloneFlags, 16, 16);
    SignedDecimalLength(info.parentUid, 5);
    SignedDecimalLength(info.parentPid, 10);
    SignedDecimalLength(info.childPid, 10);
    SignedDecimalLength(info.childReturn, 19);
  }

  /** A fork line is between 90 and 137 bytes long. */
  lemma ShowLength(info: ForkInfo)
    ensures 90 <= |Show(info)| <= 137
  {
    FieldWidths(info);
  }

  /** `%s` stops at the first NUL of `command_name`: records that differ only in
      the bytes after it print the same line. */
  lemma ShowHidesBytesAfterNul(a: ForkInfo, b: ForkInfo)
    requires a.(commandName := b.commandName) == b
    requires CString(a.commandName) == CString(b.commandName)
    ensures Show(a) == Show(b)
  {
  }

  /** Two distinct records with one line: the command "b" followed by NULs, and "b", NUL, "x". */
  lemma NulTailExample()
    ensures var a := ForkInfo(0, 0, 0, 0, [98] + seq(15, _ => 0), 0);
            var b := ForkInfo(0, 0, 0, 0, [98, 0, 120] + seq(13, _ => 0), 0);
            a != b && Show(a) == Show(b)
  {
    var x: CommandName := [98] + seq(15, _ => 0);
    var y: CommandName := [98, 0, 120] + seq(13, _ => 0);
    assert x[2] != y[2];
    assert CString(x[1..]) == [] && CString(y[1..]) == [];
    assert CString(x) == [98] == CString(y);
    ShowHidesBytesAfterNul(ForkInfo(0, 0, 0, 0, x, 0), ForkInfo(0, 0, 0, 0, y, 0));
  }

  /** Leading spaces of a command name are indistinguishable from the `%8s` padding:
      the commands " b" and "b" print the same comm field. */
  lemma LeadingSpaceExample()
    ensures StringField([32, 98] + seq(14, _ => 0), CommWidth)
            == StringField([98] + seq(15, _ => 0), CommWidth)
            == "       b"
  {
    var x: CommandName := [32, 98] + seq(14, _ => 0);
    var y: CommandName := [98] + seq(15, _ => 0);
    assert CString(x[2..]) == [];
    assert CString(x[1..]) == [98];
    assert CString(x) == [32, 98];
    assert CString(y[1..]) == [];
    assert CString(y) == [98];
    assert AsText([32, 98]) == " b";
    assert AsText([98]) == "b";
    assert Repeat(' ', 6) == "      ";
    assert Repeat(' ', 7) == "       ";
  }

  /** A `bash` process (uid 1000, pid 100) forking child 101 with flags 0x11, seen from the child. */
  lemma BashForkLine()
    ensures Show(ForkInfo(0x11, 100, 101, 1000, [98, 97, 115, 104] + seq(12, _ => 0), 0))
            == "flags = 0x00000011, user =  1000, ppid =   100, cpid =   101, comm =     bash, return = 0\n"
  {
    var name: CommandName := [98, 97, 115, 104] + seq(12, _ => 0);
    BashFields(name);
    var info := ForkInfo(0x11, 100, 101, 1000, name, 0);
    assert Show(info) == "flags = 0x" + "00000011" + ", user = " + " 1000" + ", ppid = " + "  100"
      + ", cpid = " + "  101" + ", comm = " + "    bash" + ", return = " + "0" + "\n";
    BashLiteral();
  }

  /** The expected line, assembled one field (label and value) at a time. */
  lemma BashLiteral()
    ensures "flags = 0x" + "00000011" + ", user = " + " 1000" + ", ppid = " + "  100"
      + ", cpid = " + "  101" + ", comm = " + "    bash" + ", return = " + "0" + "\n"
      == "flags = 0x00000011, user =  1000, ppid =   100, cpid =   101, comm =     bash, return = 0\n"
  {
    var line := "flags = 0x" + "00000011";
    assert line == "flags = 0x00000011";
    line := line + ", user = " + " 1000";
    assert line == "flags = 0x00000011, user =  1000";
    line := line + ", ppid = " + "  100";
    assert line == "flags = 0x00000011, user =  1000, ppid =   100";
    line := line + ", cpid = " + "  101";
    assert line == "flags = 0x00000011, user =  1000, ppid =   100, cpid =   101";
    line := line + ", comm = " + "    bash";
    assert line == "flags = 0x00000011, user =  1000, ppid =   100, cpid =   101, comm =     bash";
  }

  lemma BashFields(name: CommandName)
    requires name == [98, 97, 115, 104] + seq(12, _ => 0)
    ensures HexZeroPadded(0x11, FlagsWidth) == "00000011"
    ensures DecimalField(1000, IdWidth) == " 1000"
    ensures DecimalField(100, IdWidth) == "  100"
    ensures DecimalField(101, IdWidth) == "  101"
    ensures StringField(name, CommWidth) == "    bash"
    ensures DecimalField(0, 0) == "0"
  {
    BashFlags();
    BashIds();
    BashName(name);
    assert Digits(0, 10) == "0";
  }

  lemma BashFlags()
    ensures HexZeroPadded(0x11, FlagsWidth) == "00000011"
  {
    assert Digits(0x11, 16) == "11";
    assert Repeat('0', 6) == "000000";
  }

  lemma BashIds()
    ensures DecimalField(1000, IdWidth) == " 1000"
    ensures DecimalField(100, IdWidth) == "  100"
    ensures DecimalField(101, IdWidth) == "  101"
  {
    BashDigits();
    DecimalFieldIsPadded(1000, IdWidth);
    DecimalFieldIsPadded(100, IdWidth);
    DecimalFieldIsPadded(101, IdWidth);
    BashPadding();
  }

  lemma BashPadding()
    ensures PadLeft("1000", IdWidth, ' ') == " 1000"
    ensures PadLeft("100", IdWidth, ' ') == "  100"
    ensures PadLeft("101", IdWidth, ' ') == "  101"
  {
    assert Repeat(' ', 1) == " ";
    assert Repeat(' ', 2) == "  ";
  }

  lemma BashDigits()
    ensures SignedDecimal(1000) == "1000"
    ensures SignedDecimal(100) == "100"
    ensures SignedDecimal(101) == "101"
  {
    assert Digits(10, 10) == "10";
    assert Digits(100, 10) == "100";
    assert Digits(1000, 10) == "1000";
    assert Digits(101, 10) == "101";
  }

  lemma BashName(name: CommandName)
    requires name == [98, 97, 115, 104] + seq(12, _ => 0)
    ensures StringField(name, CommWidth) == "    bash"
  {
    assert CString(name[4..]) == [];
    assert CString(name[3..]) == [104];
    assert CString(name[2..]) == [115, 104];
    assert CString(name[1..]) == [97, 115, 104];
    assert CString(name) == [98, 97, 115, 104];
    assert AsText([98, 97, 115, 104]) == "bash";
    assert Repeat(' ', 4) == "    ";
  }
}
