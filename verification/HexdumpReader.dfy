/** Reads a hexdump back. Nothing here is built from the formatter: the reader
    cuts fixed columns out of each line and scans them for pairs of digits. */
module HexdumpReader {
  import opened Common
  import opened CText
  import opened Hexdump

  function DigitValue(c: char): Option<nat> {
    if '0' <= c <= '9' then Some((c - '0') as nat)
    else if 'a' <= c <= 'f' then Some((c - 'a') as nat + 10)
    else if 'A' <= c <= 'F' then Some((c - 'A') as nat + 10)
    else None
  }

  function Join<T>(a: Option<seq<T>>, b: Option<seq<T>>): Option<seq<T>> {
    if a.Some? && b.Some? then Some(a.value + b.value) else None
  }

  function ReadPair(high: char, low: char): Option<seq<byte>> {
    var h, l := DigitValue(high), DigitValue(low);
    if h.None? || l.None? || h.value * 16 + l.value > 255 then None else Some([h.value * 16 + l.value])
  }

  /** Pairs of hexadecimal digits, with blanks anywhere between the pairs. */
  function ReadBytes(column: string): Option<seq<byte>> {
    if column == "" then Some([])
    else if column[0] == ' ' then ReadBytes(column[1..])
    else if |column| < 2 then None
    else
      Join(ReadPair(column[0], column[1]), ReadBytes(column[2..]))
  }

  /** The bytes of one line: the fifty columns after the label. */
  function ReadLine(line: string): Option<seq<byte>> {
    if |line| < 59 then None else ReadBytes(line[9..59])
  }

  function ReadDump(lines: seq<string>): Option<seq<byte>> {
    if lines == [] then Some([])
    else Join(ReadDump(lines[..|lines| - 1]), ReadLine(lines[|lines| - 1]))
  }

  function HexValue(digits: string): Option<nat> {
    if digits == "" then Some(0)
    else
      var high, low := HexValue(digits[..|digits| - 1]), DigitValue(digits[|digits| - 1]);
      if high.Some? && low.Some? then Some(high.value * 16 + low.value) else None
  }

  /** The offset a line is labelled with. */
  function ReadLabel(line: string): Option<nat> {
    if |line| < 6 || line[0] != '[' || line[5] != ']' then None else HexValue(line[1..5])
  }

  // ---- Round trip ------------------------------------------------------------

  lemma JoinAssociates<T>(a: Option<seq<T>>, b: Option<seq<T>>, c: Option<seq<T>>)
    ensures Join(Join(a, b), c) == Join(a, Join(b, c))
  {
    if a.Some? && b.Some? && c.Some? {
      assert a.value + b.value + c.value == a.value + (b.value + c.value);
    }
  }

  lemma JoinEmpty<T>(a: Option<seq<T>>)
    ensures Join(Some([]), a) == a
  {
    if a.Some? {
      assert [] + a.value == a.value;
    }
  }

  lemma DropOfAppend<T>(s: seq<T>, t: seq<T>, k: nat)
    requires k <= |s|
    ensures (s + t)[k..] == s[k..] + t && (s + t)[..k] == s[..k]
  {
  }

  lemma {:induction false} ReadBytesAppend(s: string, t: string)
    requires ReadBytes(s).Some?
    ensures ReadBytes(s + t) == Join(ReadBytes(s), ReadBytes(t))
  {
    hide ReadPair, DigitValue;
    if s == "" {
      assert s + t == t;
      JoinEmpty(ReadBytes(t));
    } else if s[0] == ' ' {
      ReadBytesAppend(s[1..], t);
      DropOfAppend(s, t, 1);
    } else {
      ReadBytesAppend(s[2..], t);
      DropOfAppend(s, t, 2);
      JoinAssociates(ReadPair(s[0], s[1]), ReadBytes(s[2..]), ReadBytes(t));
    }
  }

  lemma {:induction false} ReadBlanks(s: string)
    requires forall i | 0 <= i < |s| :: s[i] == ' '
    ensures ReadBytes(s) == Some([])
  {
    if s != "" {
      ReadBlanks(s[1..]);
    }
  }

  lemma ReadHexByte(b: byte)
    ensures ReadBytes(HexByte(b)) == Some([b])
  {
    var s := HexByte(b);
    ReadBlanks(s[2..]);
    assert ReadPair(s[0], s[1]) == Some([b]);
    assert [b] + [] == [b];
  }

  lemma {:induction false} ReadHexColumn(bs: seq<byte>)
    ensures ReadBytes(HexColumn(bs)) == Some(bs)
  {
    if bs != [] {
      var init, b := bs[..|bs| - 1], bs[|bs| - 1];
      var gap := if |bs| == 8 then "  " else "";
      ReadHexColumn(init);
      ReadHexByte(b);
      ReadBlanks(gap);
      ReadBytesAppend(HexColumn(init), HexByte(b));
      ReadBytesAppend(HexColumn(init) + HexByte(b), gap);
      assert bs == init + [b] + [];
    }
  }

  lemma LineLayout(offset: nat, bs: seq<byte>)
    requires |bs| <= 16
    ensures var line := Line(offset, bs);
      && |line| == 61 + |CharColumn(bs)|
      && line[0] == '[' && line[5] == ']'
      && line[1..5] == Take(LowerHex(offset, 4), 4)
      && line[9..59] == PadRight(HexColumn(bs), 50)
      && line[61..] == CharColumn(bs)
  {
    PendingLengths(bs);
    LowerHexShape(offset, 4);
  }

  lemma ReadLineBack(offset: nat, bs: seq<byte>)
    requires |bs| <= 16
    ensures ReadLine(Line(offset, bs)) == Some(bs)
  {
    LineLayout(offset, bs);
    PendingLengths(bs);
    var pad := PadRight(HexColumn(bs), 50)[|HexColumn(bs)|..];
    assert PadRight(HexColumn(bs), 50) == HexColumn(bs) + pad;
    ReadHexColumn(bs);
    ReadBlanks(pad);
    ReadBytesAppend(HexColumn(bs), pad);
    assert bs + [] == bs;
  }

  /** Reading the dump of any block gives back exactly that block. */
  lemma {:induction false} RoundTrip(data: seq<byte>)
    ensures ReadDump(Dump(data)) == Some(data)
    decreases |data|
  {
    if data != [] {
      var row := (|data| - 1) / 16;
      var before, last := data[..16 * row], data[16 * row..];
      SliceAll(data);
      DumpLine(data, row, |data|);
      RoundTrip(before);
      ReadLineBack(16 * row, last);
      assert before + last == data;
      ReadDumpStep(Dump(before), Line(16 * row, last));
    }
  }

  lemma ReadDumpStep(lines: seq<string>, line: string)
    ensures ReadDump(lines + [line]) == Join(ReadDump(lines), ReadLine(line))
  {
    assert (lines + [line])[..|lines|] == lines;
  }

  lemma DumpIsInjective(a: seq<byte>, b: seq<byte>)
    requires Dump(a) == Dump(b)
    ensures a == b
  {
    RoundTrip(a);
    RoundTrip(b);
  }

  // ---- Labels ----------------------------------------------------------------

  lemma {:induction false} ReadLowerHex(n: nat, width: nat)
    ensures HexValue(LowerHex(n, width)) == Some(n)
    decreases n, width
  {
    var s := LowerHex(n, width);
    if n < 16 && width <= 1 {
      assert s[..0] == "";
    } else {
      var high := LowerHex(n / 16, if width == 0 then 0 else width - 1);
      ReadLowerHex(n / 16, if width == 0 then 0 else width - 1);
      assert s[..|s| - 1] == high;
    }
  }

  /** Leading digits of a number make a number no larger than the rest implies. */
  lemma {:induction false} ReadPrefix(digits: string, k: nat)
    requires HexValue(digits).Some? && k < |digits|
    ensures HexValue(digits[..k]).Some?
    ensures HexValue(digits[..k]).value <= HexValue(digits).value / 16
  {
    var init := digits[..|digits| - 1];
    if k < |init| {
      ReadPrefix(init, k);
      assert init[..k] == digits[..k];
    } else {
      assert digits[..k] == init;
    }
  }

  lemma {:induction false} LowerHexLength(n: nat, width: nat)
    requires width >= 1
    ensures n < Pow16(width) ==> |LowerHex(n, width)| == width
    ensures n >= Pow16(width) ==> |LowerHex(n, width)| > width
    decreases n, width
  {
    if n < 16 && width <= 1 {
    } else if width == 1 {
      LowerHexShape(n / 16, 0);
    } else {
      LowerHexLength(n / 16, width - 1);
    }
  }

  function Pow16(k: nat): nat {
    if k == 0 then 1 else 16 * Pow16(k - 1)
  }

  /** A label names its line's offset exactly when four digits can. */
  lemma LabelIsOffset(offset: nat, bs: seq<byte>)
    requires |bs| <= 16
    ensures ReadLabel(Line(offset, bs)).Some?
    ensures ReadLabel(Line(offset, bs)).value == offset <==> offset <= 0xFFFF
  {
    var digits := LowerHex(offset, 4);
    LineLayout(offset, bs);
    ReadLowerHex(offset, 4);
    LowerHexLength(offset, 4);
    assert Pow16(4) == 0x10000 by { assert Pow16(2) == 256; }
    if offset <= 0xFFFF {
      assert Take(digits, 4) == digits;
    } else {
      ReadPrefix(digits, 4);
      assert Take(digits, 4) == digits[..4];
    }
  }

  // ---- Shape and composition -------------------------------------------------

  lemma Shape(data: seq<byte>)
    ensures |Dump(data)| == |data| / 16 + (if |data| % 16 == 0 then 0 else 1)
    ensures forall i | 0 <= i < |Dump(data)| ::
      ReadLabel(Dump(data)[i]).Some? && (ReadLabel(Dump(data)[i]).value == 16 * i <==> 16 * i <= 0xFFFF)
    ensures |data| <= 0x10000 ==>
      forall i | 0 <= i < |Dump(data)| :: ReadLabel(Dump(data)[i]) == Some(16 * i)
  {
    forall i | 0 <= i < |Dump(data)|
      ensures ReadLabel(Dump(data)[i]).Some?
      ensures ReadLabel(Dump(data)[i]).value == 16 * i <==> 16 * i <= 0xFFFF
    {
      LabelIsOffset(16 * i, Chunk(data, i));
    }
  }

  lemma DumpLength(data: seq<byte>)
    ensures |Dump(data)| == |data| / 16 + (if |data| % 16 == 0 then 0 else 1)
  {
  }

  /** Two lines show the same after their labels. */
  predicate SameColumns(line: string, other: string) {
    |line| >= 61 && |other| >= 61 && line[9..59] == other[9..59] && line[61..] == other[61..]
  }

  lemma FirstLinesAgree(a: seq<byte>, b: seq<byte>, i: nat)
    requires |a| % 16 == 0 && i < |Dump(a)|
    ensures i < |Dump(a + b)| && Dump(a + b)[i] == Dump(a)[i]
  {
    assert Chunk(a + b, i) == Chunk(a, i);
  }

  lemma LastLinesAgree(a: seq<byte>, b: seq<byte>, j: nat)
    requires |a| % 16 == 0 && j < |Dump(b)|
    ensures |a| / 16 + j < |Dump(a + b)| && SameColumns(Dump(a + b)[|a| / 16 + j], Dump(b)[j])
  {
    assert Chunk(a + b, |a| / 16 + j) == Chunk(b, j);
    LinesDifferByLabel(16 * (|a| / 16 + j), 16 * j, Chunk(b, j));
  }

  /** Dumping `a` and then `b` shows what their separate dumps show, when `a` ends a line. */
  lemma Composition(a: seq<byte>, b: seq<byte>)
    requires |a| % 16 == 0
    ensures |Dump(a + b)| == |Dump(a)| + |Dump(b)|
    ensures forall i | 0 <= i < |Dump(a)| :: Dump(a + b)[i] == Dump(a)[i]
    ensures forall j | 0 <= j < |Dump(b)| :: SameColumns(Dump(a + b)[|Dump(a)| + j], Dump(b)[j])
  {
    hide SameColumns, Line, Chunk;
    var ab := a + b;
    DumpLength(ab);
    DumpLength(a);
    DumpLength(b);
    forall i | 0 <= i < |Dump(a)|
      ensures Dump(ab)[i] == Dump(a)[i]
    {
      FirstLinesAgree(a, b, i);
    }
    forall j | 0 <= j < |Dump(b)|
      ensures SameColumns(Dump(ab)[|Dump(a)| + j], Dump(b)[j])
    {
      LastLinesAgree(a, b, j);
    }
  }

  lemma LinesDifferByLabel(offset: nat, other: nat, bs: seq<byte>)
    requires |bs| <= 16
    ensures SameColumns(Line(offset, bs), Line(other, bs))
  {
    LineLayout(offset, bs);
    LineLayout(other, bs);
  }

  /** The character column: one character a byte, and a blank after the eighth. */
  lemma {:induction false} CharColumnShows(bs: seq<byte>)
    requires |bs| <= 16
    ensures |CharColumn(bs)| == |bs| + (if |bs| >= 8 then 1 else 0)
    ensures forall i | 0 <= i < |bs| :: CharColumn(bs)[if i < 8 then i else i + 1] == Shown(bs[i])
    ensures |bs| >= 8 ==> CharColumn(bs)[8] == ' '
  {
    if bs != [] {
      var init := bs[..|bs| - 1];
      CharColumnShows(init);
      PendingLengths(init);
      forall i | 0 <= i < |bs|
        ensures CharColumn(bs)[if i < 8 then i else i + 1] == Shown(bs[i])
      {
        if i < |init| {
          assert init[i] == bs[i] && CharColumn(init)[if i < 8 then i else i + 1] == Shown(init[i]);
        } else {
          assert CharColumn(bs)[|CharColumn(init)|] == Shown(bs[i]);
        }
      }
    }
  }

  // ---- Every character of a line -----------------------------------------------

  const UPPER := "0123456789ABCDEF"
  const LOWER := "0123456789abcdef"

  /** Where byte `i` of a line is shown: its two digits and a blank, and its character. */
  function HexAt(i: nat): nat {
    if i < 8 then 9 + 3 * i else 11 + 3 * i
  }

  function CharAt(i: nat): nat {
    if i < 8 then 61 + i else 62 + i
  }

  predicate ShowsByte(line: string, i: nat, b: byte)
    requires i < 16 && |line| > CharAt(i)
  {
    && line[HexAt(i)..HexAt(i) + 3] == [UPPER[b / 16], UPPER[b % 16], ' ']
    && (line[CharAt(i)] == b as char <==> b == 46 || 48 <= b <= 57 || 65 <= b <= 90 || 97 <= b <= 122)
    && (line[CharAt(i)] != b as char ==> line[CharAt(i)] == '.')
  }

  /** The four digits of a number below 65536. */
  predicate ShowsNumber(digits: string, n: nat)
    requires n <= 0xFFFF
  {
    digits == [LOWER[n / 0x1000], LOWER[n / 0x100 % 16], LOWER[n / 0x10 % 16], LOWER[n % 16]]
  }

  /** The four leading hexadecimal digits of a longer number. */
  function Leading(n: nat): (r: nat)
    ensures r <= 0xFFFF
  {
    if n <= 0xFFFF then n else Leading(n / 16)
  }

  lemma LowerDigitIs(d: nat)
    requires d < 16
    ensures LowerDigit(d) == LOWER[d]
  {
  }

  lemma HexByteShows(b: byte)
    ensures HexByte(b) == [UPPER[b / 16], UPPER[b % 16], ' ']
  {
    assert forall d | 0 <= d < 16 :: UpperDigit(d) == UPPER[d];
  }

  lemma Within<T>(s: seq<T>, t: seq<T>, from: nat, to: nat)
    requires s <= t && from <= to <= |s|
    ensures t[from..to] == s[from..to]
  {
  }

  lemma SliceOfSlice<T>(s: seq<T>, a: nat, b: nat, from: nat, to: nat)
    requires a <= b <= |s| && from <= to <= b - a
    ensures s[a..b][from..to] == s[a + from..a + to]
  {
    forall i | 0 <= i < to - from
      ensures s[a..b][from..to][i] == s[a + from..a + to][i]
    {
      assert s[a..b][from..to][i] == s[a..b][from + i] == s[a + (from + i)];
      assert s[a + from..a + to][i] == s[a + from + i];
    }
  }

  /** A column that gets three more characters keeps those it has. */
  lemma TriplesStay(before: string, digits: string, col: string, n: nat)
    requires n < 16 && |before| == HexAt(n) - 9 && |digits| == 3 && before + digits <= col
    ensures col[HexAt(n) - 9..HexAt(n) - 6] == digits
    ensures forall i | 0 <= i < n :: col[HexAt(i) - 9..HexAt(i) - 6] == before[HexAt(i) - 9..HexAt(i) - 6]
    ensures n >= 8 ==> col[24..26] == before[24..26]
  {
    assert before <= before + digits;
    Within(before + digits, col, |before|, |before| + 3);
    forall i | 0 <= i < n
      ensures col[HexAt(i) - 9..HexAt(i) - 6] == before[HexAt(i) - 9..HexAt(i) - 6]
    {
      Within(before, col, HexAt(i) - 9, HexAt(i) - 6);
    }
    if n >= 8 {
      Within(before, col, 24, 26);
    }
  }

  lemma {:induction false} HexColumnShows(bs: seq<byte>)
    requires |bs| <= 16
    ensures |HexColumn(bs)| == 3 * |bs| + (if |bs| >= 8 then 2 else 0)
    ensures forall i | 0 <= i < |bs| :: HexColumn(bs)[HexAt(i) - 9..HexAt(i) - 6] == HexByte(bs[i])
    ensures |bs| >= 8 ==> HexColumn(bs)[24..26] == "  "
  {
    hide HexColumn, CharColumn, HexByte;
    PendingLengths(bs);
    if bs != [] {
      var init, last, col := bs[..|bs| - 1], bs[|bs| - 1], HexColumn(bs);
      HexColumnShows(init);
      ColumnsStep(init, last);
      HexByteShows(last);
      assert bs == init + [last];
      TriplesStay(HexColumn(init), HexByte(last), col, |init|);
      forall i | 0 <= i < |bs|
        ensures col[HexAt(i) - 9..HexAt(i) - 6] == HexByte(bs[i])
      {
        if i < |init| {
          assert HexColumn(init)[HexAt(i) - 9..HexAt(i) - 6] == HexByte(init[i]);
        }
      }
      if |bs| == 8 {
        assert |HexColumn(init) + HexByte(last)| == 24 && col[24..] == "  ";
      }
    }
  }

  lemma {:induction false} WiderIsSame(n: nat, width: nat)
    requires n >= Pow16(width)
    ensures LowerHex(n, width) == LowerHex(n, width + 1)
    decreases width
  {
    if width > 0 {
      WiderIsSame(n / 16, width - 1);
    } else if n >= 16 {
      assert LowerHex(n, 1) == LowerHex(n / 16, 0) + [LowerDigit(n % 16)];
    }
  }

  lemma FourDigits(n: nat)
    requires n <= 0xFFFF
    ensures LowerHex(n, 4) ==
      [LowerDigit(n / 0x1000), LowerDigit(n / 0x100 % 16), LowerDigit(n / 0x10 % 16), LowerDigit(n % 16)]
  {
    hide LowerDigit;
    var a, b, c := n / 0x1000, n / 0x100, n / 0x10;
    assert c / 16 == b && b / 16 == a;
    assert LowerHex(a, 1) == [LowerDigit(a)];
    assert LowerHex(b, 2) == LowerHex(a, 1) + [LowerDigit(b % 16)];
    assert LowerHex(c, 3) == LowerHex(b, 2) + [LowerDigit(c % 16)];
  }

  lemma NumberShows(n: nat)
    requires n <= 0xFFFF
    ensures ShowsNumber(LowerHex(n, 4), n)
  {
    FourDigits(n);
    hide LowerHex;
    LowerDigitIs(n / 0x1000);
    LowerDigitIs(n / 0x100 % 16);
    LowerDigitIs(n / 0x10 % 16);
    LowerDigitIs(n % 16);
    hide LowerDigit;
  }

  lemma {:induction false} LabelShows(n: nat)
    ensures ShowsNumber(Take(LowerHex(n, 4), 4), Leading(n))
  {
    if n <= 0xFFFF {
      NumberShows(n);
    } else {
      LabelShows(n / 16);
      assert Pow16(3) == 0x1000 by { assert Pow16(2) == 0x100; }
      WiderIsSame(n / 16, 3);
      LowerHexShape(n / 16, 4);
      assert LowerHex(n, 4) == LowerHex(n / 16, 4) + [LowerDigit(n % 16)];
    }
  }

  /** A line is a label, the bytes in two columns, and blanks everywhere else. */
  lemma LineShows(offset: nat, bs: seq<byte>)
    requires |bs| <= 16
    ensures var line := Line(offset, bs);
      && |line| == 61 + |bs| + (if |bs| >= 8 then 1 else 0)
      && line[0] == '[' && ShowsNumber(line[1..5], Leading(offset)) && line[5..9] == "]   "
      && (forall i | 0 <= i < |bs| :: ShowsByte(line, i, bs[i]))
      && (|bs| >= 8 ==> line[33..35] == "  " && line[69] == ' ')
      && (forall p | HexAt(|bs|) <= p < 61 :: line[p] == ' ')
  {
    LabelShows(offset);
    LineFrame(offset, bs);
    hide LowerHex, ShowsByte, ShowsNumber, Line;
    forall i | 0 <= i < |bs|
      ensures CharAt(i) < |Line(offset, bs)| && ShowsByte(Line(offset, bs), i, bs[i])
    {
      ByteShows(offset, bs, i);
    }
  }

  lemma LineFrame(offset: nat, bs: seq<byte>)
    requires |bs| <= 16
    ensures var line := Line(offset, bs);
      && |line| == 61 + |bs| + (if |bs| >= 8 then 1 else 0)
      && line[0] == '[' && line[1..5] == Take(LowerHex(offset, 4), 4) && line[5..9] == "]   "
      && (|bs| >= 8 ==> line[33..35] == "  " && line[69] == ' ')
      && (forall p | HexAt(|bs|) <= p < 61 :: line[p] == ' ')
  {
    hide HexColumn, CharColumn, LowerHex;
    var line, hex := Line(offset, bs), HexColumn(bs);
    LowerHexShape(offset, 4);
    LineLayout(offset, bs);
    HexColumnShows(bs);
    CharColumnShows(bs);
    if |bs| >= 8 {
      Within(hex, line[9..59], 24, 26);
      SliceOfSlice(line, 9, 59, 24, 26);
      assert line[69] == line[61..][8];
    }
  }

  lemma ByteShows(offset: nat, bs: seq<byte>, i: nat)
    requires i < |bs| <= 16
    ensures CharAt(i) < |Line(offset, bs)| && ShowsByte(Line(offset, bs), i, bs[i])
  {
    var line, hex, h := Line(offset, bs), HexColumn(bs), HexAt(i);
    hide HexColumn, CharColumn, Line, LowerHex, HexByte;
    LineLayout(offset, bs);
    HexColumnShows(bs);
    HexByteShows(bs[i]);
    Within(hex, line[9..59], h - 9, h - 6);
    CharShows(offset, bs, i);
    SliceOfSlice(line, 9, 59, h - 9, h - 6);
  }

  lemma CharShows(offset: nat, bs: seq<byte>, i: nat)
    requires i < |bs| <= 16
    ensures |Line(offset, bs)| > CharAt(i) && Line(offset, bs)[CharAt(i)] == Shown(bs[i])
  {
    hide HexColumn, CharColumn, Line, LowerHex, Shown;
    LineLayout(offset, bs);
    CharColumnShows(bs);
    assert Line(offset, bs)[CharAt(i)] == Line(offset, bs)[61..][CharAt(i) - 61];
  }

  /** Every byte of a block of any length is shown, in its place. */
  lemma DumpShows(data: seq<byte>, p: nat)
    requires p < |data|
    ensures p / 16 < |Dump(data)| && CharAt(p % 16) < |Dump(data)[p / 16]|
    ensures ShowsByte(Dump(data)[p / 16], p % 16, data[p])
  {
    var bs := Chunk(data, p / 16);
    assert bs[p % 16] == data[p];
    LineShows(16 * (p / 16), bs);
  }
}
