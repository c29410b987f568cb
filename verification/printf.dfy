/** The printf conversions the two show functions use, as pure string builders:
    `%lu`, `%0<w>lX`, `%<w>d`, `%ld` and `%<w>s` on a fixed-size char array.
    A field is right-justified: padded on the left up to its minimum width and
    never truncated. */
module Printf {
  import opened Wrappers
  import opened Numerals
  import opened CTypes

  function Max(a: nat, b: nat): nat {
    if a < b then b else a
  }

  function Repeat(c: char, n: nat): (r: string)
    ensures |r| == n
    ensures forall i :: 0 <= i < n ==> r[i] == c
  {
    seq(n, _ => c)
  }

  /** Right-justifies `s` in a field of at least `width` characters. */
  function PadLeft(s: string, width: nat, fill: char): (r: string)
    ensures |r| == Max(|s|, width)
    ensures r[|r| - |s|..] == s
    ensures forall i :: 0 <= i < |r| - |s| ==> r[i] == fill
  {
    if |s| >= width then s else Repeat(fill, width - |s|) + s
  }

  /** Drops the leading run of `c`. */
  function StripLeft(s: string, c: char): (r: string)
    ensures |r| <= |s| && r == s[|s| - |r|..]
    ensures r == [] || r[0] != c
    ensures forall i :: 0 <= i < |s| - |r| ==> s[i] == c
    decreases |s|
  {
    if s != [] && s[0] == c then StripLeft(s[1..], c) else s
  }

  /** Stripping the padding undoes right-justification of a text that does not itself start with the fill. */
  lemma {:induction false} StripPadLeft(s: string, width: nat, fill: char)
    requires s == [] || s[0] != fill
    ensures StripLeft(PadLeft(s, width, fill), fill) == s
  {
    StripPrefixRun(PadLeft(s, width, fill)[..Max(|s|, width) - |s|], s, fill);
    assert PadLeft(s, width, fill) == PadLeft(s, width, fill)[..Max(|s|, width) - |s|] + s;
  }

  /** Stripping the padding of a field also works when more text follows it. */
  lemma StripPadLeftThen(s: string, width: nat, fill: char, rest: string)
    requires s != [] && s[0] != fill
    ensures StripLeft(PadLeft(s, width, fill) + rest, fill) == s + rest
  {
    var f := PadLeft(s, width, fill);
    var pad := f[..|f| - |s|];
    assert f == pad + s;
    assert f + rest == pad + (s + rest);
    StripPrefixRun(pad, s + rest, fill);
  }

  lemma {:induction false} StripPrefixRun(z: string, s: string, c: char)
    requires forall i :: 0 <= i < |z| ==> z[i] == c
    requires s == [] || s[0] != c
    ensures StripLeft(z + s, c) == s
    decreases |z|
  {
    if z == [] {
      assert z + s == s;
    } else {
      assert (z + s)[1..] == z[1..] + s;
      StripPrefixRun(z[1..], s, c);
    }
  }

  /** `%lu`: the shortest unsigned decimal numeral of the value. */
  function UnsignedDecimal(n: u64): (r: string)
    ensures ParseNat(r, 10) == Some(n)
    ensures 1 <= |r| <= 20
    ensures |r| > 1 ==> r[0] != '0'
  {
    ParseNatOfDigits(n, 10);
    PowBounds();
    DigitsLength(n, 10, 20);
    Digits(n, 10)
  }

  /** `%0<width>lX`: upper-case hexadecimal, zero-padded to at least `width` digits. */
  function HexZeroPadded(n: nat, width: nat): (r: string)
    ensures |r| == Max(|Digits(n, 16)|, width)
    ensures AllDigits(r, 16) && Value(r, 16) == n
    ensures |r| > width && |r| > 1 ==> r[0] != '0'
  {
    var d := Digits(n, 16);
    var r := PadLeft(d, width, '0');
    assert r == r[..|r| - |d|] + d;
    ValueIgnoresLeadingZeros(r[..|r| - |d|], d, 16);
    ValueOfDigits(n, 16);
    r
  }

  /** `%<width>d` and `%<width>ld`: a signed decimal right-justified with spaces. */
  function DecimalField(x: int, width: nat): (r: string)
    ensures |r| == Max(|SignedDecimal(x)|, width)
    ensures forall i :: 0 <= i < |r| - |SignedDecimal(x)| ==> r[i] == ' '
    ensures ParseSigned(StripLeft(r, ' ')) == Some(x)
  {
    var s := SignedDecimal(x);
    StripPadLeft(s, width, ' ');
    SignedDecimalRoundTrip(x);
    PadLeft(s, width, ' ')
  }

  lemma DecimalFieldIsPadded(x: int, width: nat)
    ensures DecimalField(x, width) == PadLeft(SignedDecimal(x), width, ' ')
  {
  }

  /** What `%s` reads from a char array: the bytes before the first NUL,
      or the whole array when it holds none. */
  function CString(bytes: seq<u8>): (r: seq<u8>)
    ensures |r| <= |bytes| && r == bytes[..|r|]
    ensures forall i :: 0 <= i < |r| ==> r[i] != 0
    ensures |r| < |bytes| ==> bytes[|r|] == 0
    decreases |bytes|
  {
    if bytes == [] || bytes[0] == 0 then [] else [bytes[0]] + CString(bytes[1..])
  }

  /** Bytes as the characters the terminal shows for them (Latin-1). */
  function AsText(bytes: seq<u8>): (r: string)
    ensures |r| == |bytes|
    ensures forall i :: 0 <= i < |r| ==> r[i] as int == bytes[i]
  {
    seq(|bytes|, i requires 0 <= i < |bytes| => bytes[i] as char)
  }

  /** `%<width>s` on a char array: its C string right-justified with spaces. */
  function StringField(bytes: seq<u8>, width: nat): (r: string)
    ensures |r| == Max(|CString(bytes)|, width)
    ensures forall i :: 0 <= i < |r| - |CString(bytes)| ==> r[i] == ' '
    ensures r[|r| - |CString(bytes)|..] == AsText(CString(bytes))
  {
    PadLeft(AsText(CString(bytes)), width, ' ')
  }
}
