/** A reader for the fork line, the inverse of the formatter: it recovers every
    numeric field and the padded command field from the printed text. */
module ForkLine {
  import opened Wrappers
  import opened CTypes
  import opened ForkRecord
  import opened Numerals
  import opened Printf
  import opened ForkProcfile

  /** What a line says: the flags, the three ids, the `comm` field as printed, and the return value. */
  datatype Fields = Fields(flags: nat, user: int, ppid: int, cpid: int, comm: string, ret: int)

  /** The characters a numeric field is made of. */
  datatype CharClass = HexDigits | SignedDigits

  predicate InClass(c: char, k: CharClass) {
    match k
    case HexDigits => IsDigit(c, 16)
    case SignedDigits => c == '-' || IsDigit(c, 10)
  }

  /** Length of the longest prefix of `s` made of characters of class `k`. */
  function Span(s: string, k: CharClass): (n: nat)
    ensures n <= |s|
    ensures forall i :: 0 <= i < n ==> InClass(s[i], k)
    ensures n < |s| ==> !InClass(s[n], k)
    decreases |s|
  {
    if s != [] && InClass(s[0], k) then 1 + Span(s[1..], k) else 0
  }

  /** Length of the longest suffix of `s` made of characters of class `k`. */
  function SpanBack(s: string, k: CharClass): (n: nat)
    ensures n <= |s|
    ensures forall i :: |s| - n <= i < |s| ==> InClass(s[i], k)
    ensures n < |s| ==> !InClass(s[|s| - n - 1], k)
    decreases |s|
  {
    if s != [] && InClass(s[|s| - 1], k) then 1 + SpanBack(s[..|s| - 1], k) else 0
  }

  /** Consumes `tag` at the front of `s`. */
  function Consume(tag: string, s: string): (r: Option<string>)
    ensures r.Some? <==> tag <= s
    ensures r.Some? ==> s == tag + r.value
  {
    if tag <= s then Some(s[|tag|..]) else None
  }

  /** Removes `tag` from the end of `s`. */
  function ConsumeSuffix(tag: string, s: string): (r: Option<string>)
    ensures r.Some? <==> |tag| <= |s| && s[|s| - |tag|..] == tag
    ensures r.Some? ==> s == r.value + tag
  {
    if |tag| <= |s| && s[|s| - |tag|..] == tag then Some(s[..|s| - |tag|]) else None
  }

  /** Reads a non-empty run of hexadecimal digits. */
  function ParseHex(s: string): Option<(nat, string)> {
    var n := Span(s, HexDigits);
    if n == 0 then None
    else
      assert AllDigits(s[..n], 16);
      Some((Value(s[..n], 16), s[n..]))
  }

  /** Skips leading spaces, then reads a signed decimal. */
  function ParseDecimal(s: string): Option<(int, string)> {
    var t := StripLeft(s, ' ');
    var n := Span(t, SignedDigits);
    var x :- ParseSigned(t[..n]);
    Some((x, t[n..]))
  }

  /** Reads a whole line, one field after the other. The command field may hold
      any bytes, so it is delimited from the right: the line ends with the return
      value and a newline. */
  function ParseLine(line: string): Option<Fields> {
    var r0 :- Consume(FlagsLabel, line);
    var flags :- ParseHex(r0);
    var r1 :- Consume(UserLabel, flags.1);
    ParseFromUser(flags.0, r1)
  }

  function ParseFromUser(flags: nat, s: string): Option<Fields> {
    var user :- ParseDecimal(s);
    var r :- Consume(PpidLabel, user.1);
    ParseFromPpid(flags, user.0, r)
  }

  function ParseFromPpid(flags: nat, user: int, s: string): Option<Fields> {
    var ppid :- ParseDecimal(s);
    var r :- Consume(CpidLabel, ppid.1);
    ParseFromCpid(flags, user, ppid.0, r)
  }

  function ParseFromCpid(flags: nat, user: int, ppid: int, s: string): Option<Fields> {
    var cpid :- ParseDecimal(s);
    var r :- Consume(CommLabel, cpid.1);
    var tail :- ParseCommAndReturn(r);
    Some(Fields(flags, user, ppid, cpid.0, tail.0, tail.1))
  }

  /** Splits "<comm field>, return = <decimal>\n" at the last run of sign and digit characters. */
  function ParseCommAndReturn(s: string): Option<(string, int)> {
    var body :- ConsumeSuffix("\n", s);
    var n := SpanBack(body, SignedDigits);
    var ret :- ParseSigned(body[|body| - n..]);
    var comm :- ConsumeSuffix(ReturnLabel, body[..|body| - n]);
    Some((comm, ret))
  }

  lemma {:induction false} SpanConcat(a: string, b: string, k: CharClass)
    requires forall i :: 0 <= i < |a| ==> InClass(a[i], k)
    requires b == [] || !InClass(b[0], k)
    ensures Span(a + b, k) == |a|
    decreases |a|
  {
    if a == [] {
      assert a + b == b;
    } else {
      assert (a + b)[1..] == a[1..] + b;
      SpanConcat(a[1..], b, k);
    }
  }

  lemma {:induction false} SpanBackConcat(a: string, b: string, k: CharClass)
    requires forall i :: 0 <= i < |b| ==> InClass(b[i], k)
    requires a == [] || !InClass(a[|a| - 1], k)
    ensures SpanBack(a + b, k) == |b|
    decreases |b|
  {
    if b == [] {
      assert a + b == a;
    } else {
      assert (a + b)[..|a + b| - 1] == a + b[..|b| - 1];
      SpanBackConcat(a, b[..|b| - 1], k);
    }
  }

  /** The `%08lX` field reads back as the flags, leaving what follows it. */
  lemma ParseHexField(n: nat, width: nat, rest: string)
    requires rest == [] || !InClass(rest[0], HexDigits)
    ensures ParseHex(HexZeroPadded(n, width) + rest) == Some((n, rest))
  {
    var h := HexZeroPadded(n, width);
    SpanConcat(h, rest, HexDigits);
    assert (h + rest)[..|h|] == h;
    assert (h + rest)[|h|..] == rest;
  }

  /** A `%<w>d` field reads back as its value, leaving what follows it. */
  lemma ParseDecimalField(x: int, width: nat, rest: string)
    requires rest == [] || !InClass(rest[0], SignedDigits)
    ensures ParseDecimal(DecimalField(x, width) + rest) == Some((x, rest))
  {
    StripDecimalField(x, width, rest);
    SpanSignedDecimal(x, rest);
    SignedDecimalRoundTrip(x);
  }

  lemma StripDecimalField(x: int, width: nat, rest: string)
    ensures StripLeft(DecimalField(x, width) + rest, ' ') == SignedDecimal(x) + rest
  {
    assert DecimalField(x, width) == PadLeft(SignedDecimal(x), width, ' ');
    StripPadLeftThen(SignedDecimal(x), width, ' ', rest);
  }

  lemma SpanSignedDecimal(x: int, rest: string)
    requires rest == [] || !InClass(rest[0], SignedDigits)
    ensures var t := SignedDecimal(x) + rest;
            var n := Span(t, SignedDigits);
            t[..n] == SignedDecimal(x) && t[n..] == rest
  {
    var s := SignedDecimal(x);
    assert forall i :: 0 <= i < |s| ==> InClass(s[i], SignedDigits);
    SpanConcat(s, rest, SignedDigits);
    assert (s + rest)[..|s|] == s;
    assert (s + rest)[|s|..] == rest;
  }

  /** The tail after the `comm` label reads back as the command field and the return value. */
  lemma ParseTail(comm: string, ret: int)
    ensures ParseCommAndReturn(comm + ReturnLabel + SignedDecimal(ret) + "\n") == Some((comm, ret))
  {
    var s := SignedDecimal(ret);
    var body := comm + ReturnLabel + s;
    assert (body + "\n")[..|body|] == body;
    assert forall i :: 0 <= i < |s| ==> InClass(s[i], SignedDigits);
    SpanBackConcat(comm + ReturnLabel, s, SignedDigits);
    assert body[|body| - |s|..] == s;
    assert body[..|body| - |s|] == comm + ReturnLabel;
    assert (comm + ReturnLabel)[..|comm|] == comm;
    SignedDecimalRoundTrip(ret);
  }

  lemma ConsumeConcat(tag: string, rest: string)
    ensures Consume(tag, tag + rest) == Some(rest)
  {
    assert (tag + rest)[|tag|..] == rest;
  }

  lemma AppendAssoc(x: string, a: string, y: string)
    ensures x + a + y == x + (a + y)
  {
  }

  /** Reading a printed fork line gives back the five numeric fields and the
      printed comm field. The comm field itself does not recover `command_name`:
      bytes after its first NUL never reach the line (`ShowHidesBytesAfterNul`),
      and leading spaces of the name cannot be told from the padding
      (`LeadingSpaceExample`; `CommFieldText` says when they can). */
  lemma ShowRoundTrip(info: ForkInfo)
    ensures ParseLine(Show(info)) == Some(Fields(
      info.cloneFlags, info.parentUid, info.parentPid, info.childPid,
      StringField(info.commandName, CommWidth), info.childReturn))
  {
    var h := HexZeroPadded(info.cloneFlags, FlagsWidth);
    var c := StringField(info.commandName, CommWidth);
    var t1 := UserOnward(info.parentUid, info.parentPid, info.childPid, c, info.childReturn);
    LineShape(info, h, c, t1);
    ParseUserOnward(info.cloneFlags, info.parentUid, info.parentPid, info.childPid, c, info.childReturn);
    ParseFlagsOnward(info.cloneFlags, t1);
  }

  lemma ParseFlagsOnward(flags: nat, t1: string)
    ensures ParseLine(FlagsLabel + (HexZeroPadded(flags, FlagsWidth) + (UserLabel + t1))) == ParseFromUser(flags, t1)
  {
    var h := HexZeroPadded(flags, FlagsWidth);
    ParseHexField(flags, FlagsWidth, UserLabel + t1);
    ConsumeConcat(UserLabel, t1);
    ConsumeConcat(FlagsLabel, h + (UserLabel + t1));
  }

  /** The printed line from the user id onward. */
  function UserOnward(user: int, ppid: int, cpid: int, c: string, ret: int): string {
    DecimalField(user, IdWidth) + (PpidLabel + PpidOnward(ppid, cpid, c, ret))
  }

  function PpidOnward(ppid: int, cpid: int, c: string, ret: int): string {
    DecimalField(ppid, IdWidth) + (CpidLabel + CpidOnward(cpid, c, ret))
  }

  function CpidOnward(cpid: int, c: string, ret: int): string {
    DecimalField(cpid, IdWidth) + (CommLabel + (c + ReturnLabel + SignedDecimal(ret) + "\n"))
  }

  lemma ParseUserOnward(flags: nat, user: int, ppid: int, cpid: int, c: string, ret: int)
    ensures ParseFromUser(flags, UserOnward(user, ppid, cpid, c, ret)) == Some(Fields(flags, user, ppid, cpid, c, ret))
  {
    ParsePpidOnward(flags, user, ppid, cpid, c, ret);
    ParseDecimalField(user, IdWidth, PpidLabel + PpidOnward(ppid, cpid, c, ret));
    ConsumeConcat(PpidLabel, PpidOnward(ppid, cpid, c, ret));
  }

  lemma ParsePpidOnward(flags: nat, user: int, ppid: int, cpid: int, c: string, ret: int)
    ensures ParseFromPpid(flags, user, PpidOnward(ppid, cpid, c, ret)) == Some(Fields(flags, user, ppid, cpid, c, ret))
  {
    ParseCpidOnward(flags, user, ppid, cpid, c, ret);
    ParseDecimalField(ppid, IdWidth, CpidLabel + CpidOnward(cpid, c, ret));
    ConsumeConcat(CpidLabel, CpidOnward(cpid, c, ret));
  }

  lemma ParseCpidOnward(flags: nat, user: int, ppid: int, cpid: int, c: string, ret: int)
    ensures ParseFromCpid(flags, user, ppid, CpidOnward(cpid, c, ret)) == Some(Fields(flags, user, ppid, cpid, c, ret))
  {
    var t4 := c + ReturnLabel + SignedDecimal(ret) + "\n";
    ParseTail(c, ret);
    ParseDecimalField(cpid, IdWidth, CommLabel + t4);
    ConsumeConcat(CommLabel, t4);
  }

  /** The printed line, regrouped field by field from the right. */
  lemma LineShape(info: ForkInfo, h: string, c: string, t1: string)
    requires h == HexZeroPadded(info.cloneFlags, FlagsWidth)
    requires c == StringField(info.commandName, CommWidth)
    requires t1 == UserOnward(info.parentUid, info.parentPid, info.childPid, c, info.childReturn)
    ensures Show(info) == FlagsLabel + (h + (UserLabel + t1))
  {
    var u := DecimalField(info.parentUid, IdWidth);
    var pp := DecimalField(info.parentPid, IdWidth);
    var cp := DecimalField(info.childPid, IdWidth);
    var rv := DecimalField(info.childReturn, 0);
    assert rv == SignedDecimal(info.childReturn);
    var body := c + ReturnLabel + rv;
    var t4 := body + "\n";
    var t3 := CpidOnward(info.childPid, c, info.childReturn);
    var t2 := PpidOnward(info.parentPid, info.childPid, c, info.childReturn);
    assert t3 == cp + (CommLabel + t4);
    assert t2 == pp + (CpidLabel + t3);
    assert t1 == u + (PpidLabel + t2);
    var s1 := FlagsLabel + h;
    var s2 := s1 + UserLabel + u;
    var s3 := s2 + PpidLabel + pp;
    var s4 := s3 + CpidLabel + cp;
    var s5 := s4 + CommLabel;
    assert Show(info) == s5 + c + ReturnLabel + rv + "\n";
    AppendAssoc(s5, c, ReturnLabel);
    AppendAssoc(s5, c + ReturnLabel, rv);
    AppendAssoc(s5, body, "\n");
    AppendAssoc(s4, CommLabel, t4);
    AppendAssoc(s3 + CpidLabel, cp, CommLabel + t4);
    AppendAssoc(s3, CpidLabel, t3);
    AppendAssoc(s2 + PpidLabel, pp, CpidLabel + t3);
    AppendAssoc(s2, PpidLabel, t2);
    AppendAssoc(s1 + UserLabel, u, PpidLabel + t2);
    AppendAssoc(s1, UserLabel, t1);
    AppendAssoc(FlagsLabel, h, UserLabel + t1);
  }

  /** Stripping the padding of the `comm` field gives the command text, unless that text itself starts with a space. */
  lemma CommFieldText(name: CommandName)
    requires CString(name) == [] || CString(name)[0] != ' ' as int
    ensures StripLeft(StringField(name, CommWidth), ' ') == AsText(CString(name))
  {
    StripPadLeft(AsText(CString(name)), CommWidth, ' ');
  }
}
