/** The hexdump of a block of bytes (tuntap_log.c), an independent reader of the
    dump, and what the reader gets back. */
module Hexdump {
  import opened Common
  import opened CText

  // ---- What one line shows -------------------------------------------------

  function UpperDigit(d: nat): char
    requires d < 16
  {
    if d < 10 then '0' + d as char else 'A' + (d - 10) as char
  }

  function LowerDigit(d: nat): char
    requires d < 16
  {
    if d < 10 then '0' + d as char else 'a' + (d - 10) as char
  }

  function HexByte(b: byte): string {
    [UpperDigit(b / 16), UpperDigit(b % 16), ' ']
  }

  predicate IsAlnum(b: byte) {
    '0' <= b as char <= '9' || 'A' <= b as char <= 'Z' || 'a' <= b as char <= 'z'
  }

  function Shown(b: byte): char {
    if IsAlnum(b) then b as char else '.'
  }

  /** The hex column after `bs`, the bytes of one line so far. */
  function HexColumn(bs: seq<byte>): string {
    if bs == [] then "" else
      HexColumn(bs[..|bs| - 1]) + HexByte(bs[|bs| - 1]) + (if |bs| == 8 then "  " else "")
  }

  function CharColumn(bs: seq<byte>): string {
    if bs == [] then "" else
      CharColumn(bs[..|bs| - 1]) + [Shown(bs[|bs| - 1])] + (if |bs| == 8 then " " else "")
  }

  /** `%.<width>zx`: lower-case hexadecimal with at least `width` digits. */
  function LowerHex(n: nat, width: nat): string
    decreases n, width
  {
    if n < 16 && width <= 1 then [LowerDigit(n)]
    else LowerHex(n / 16, if width == 0 then 0 else width - 1) + [LowerDigit(n % 16)]
  }

  function PadRight(s: string, width: nat): string {
    s + seq(if |s| < width then width - |s| else 0, _ => ' ')
  }

  function PadLeft(s: string, width: nat): string {
    seq(if |s| < width then width - |s| else 0, _ => ' ') + s
  }

  /** The format `[%4.4s]   %-50.50s  %s`. */
  function Format(addr: string, hex: string, chars: string): string {
    "[" + PadLeft(Take(addr, 4), 4) + "]   " + PadRight(Take(hex, 50), 50) + "  " + chars
  }

  // ---- The dump as a value ---------------------------------------------------

  /** One line: nothing of the hex or character column is cut off. */
  function Line(offset: nat, bs: seq<byte>): string {
    "[" + Take(LowerHex(offset, 4), 4) + "]   " + PadRight(HexColumn(bs), 50) + "  " + CharColumn(bs)
  }

  /** The bytes shown on line `i`. */
  function Chunk(data: seq<byte>, i: nat): seq<byte>
    requires 16 * i <= |data|
  {
    data[16 * i..Min(16 * i + 16, |data|)]
  }

  function Dump(data: seq<byte>): seq<string> {
    seq((|data| + 15) / 16, i requires 0 <= 16 * i <= |data| => Line(16 * i, Chunk(data, i)))
  }

  lemma ColumnsStep(line: seq<byte>, b: byte)
    ensures HexColumn(line + [b]) == HexColumn(line) + HexByte(b) + (if |line| == 7 then "  " else "")
    ensures CharColumn(line + [b]) == CharColumn(line) + [Shown(b)] + (if |line| == 7 then " " else "")
  {
    assert (line + [b])[..|line|] == line;
  }

  // ---- The buffers -----------------------------------------------------------

  /** With k bytes pending, how full `hexstr` and `charstr` are. */
  lemma {:induction false} PendingLengths(bs: seq<byte>)
    ensures |HexColumn(bs)| == 3 * |bs| + (if |bs| >= 8 then 2 else 0)
    ensures |CharColumn(bs)| == |bs| + (if |bs| >= 8 then 1 else 0)
    ensures NUL !in HexColumn(bs) && NUL !in CharColumn(bs)
  {
    if bs != [] {
      PendingLengths(bs[..|bs| - 1]);
    }
  }

  lemma {:induction false} LowerHexShape(n: nat, width: nat)
    ensures |LowerHex(n, width)| >= width && |LowerHex(n, width)| >= 1
    ensures NUL !in LowerHex(n, width)
    decreases n, width
  {
    if !(n < 16 && width <= 1) {
      LowerHexShape(n / 16, if width == 0 then 0 else width - 1);
    }
  }

  /** The two precisions of the format string never cut anything off. */
  lemma FormatIsLine(offset: nat, bs: seq<byte>)
    requires |bs| <= 16
    ensures Format(Take(LowerHex(offset, 4), 9), HexColumn(bs), CharColumn(bs)) == Line(offset, bs)
  {
    hide HexColumn, CharColumn, LowerHex;
    PendingLengths(bs);
    LowerHexShape(offset, 4);
    assert Take(Take(LowerHex(offset, 4), 9), 4) == Take(LowerHex(offset, 4), 4);
  }

  /** A line fits the 1024-byte buffer and holds no NUL. */
  lemma LineFits(offset: nat, bs: seq<byte>)
    requires |bs| <= 16
    ensures |Line(offset, bs)| == 61 + |CharColumn(bs)| <= 78
    ensures NUL !in Line(offset, bs)
  {
    hide HexColumn, CharColumn, LowerHex;
    PendingLengths(bs);
    LowerHexShape(offset, 4);
  }

  /** Completing line number `row` adds it to the dump of the lines before. */
  lemma DumpLine(data: seq<byte>, row: nat, end: nat)
    requires 16 * row < end <= |data| && end <= 16 * row + 16
    ensures Dump(data[..end]) == Dump(data[..16 * row]) + [Line(16 * row, data[16 * row..end])]
  {
    var before, after := data[..16 * row], data[..end];
    hide Line;
    forall i | 0 <= i < row
      ensures Dump(after)[i] == Dump(before)[i]
    {
      assert Chunk(after, i) == Chunk(before, i);
    }
    assert Chunk(after, row) == data[16 * row..end];
    assert |Dump(after)| == row + 1 && |Dump(before)| == row;
    assert Dump(after)[..row] == Dump(before);
  }

  /** The three buffers describe `line`, the bytes of the line starting at `start`. */
  ghost predicate Pending(addrstr: array<char>, hexstr: array<char>, charstr: array<char>, start: nat, line: seq<byte>)
    reads addrstr, hexstr, charstr
  {
    && addrstr.Length == 10 && hexstr.Length == 53 && charstr.Length == 21
    && addrstr != hexstr && addrstr != charstr && hexstr != charstr
    && NUL in addrstr[..] && NUL in hexstr[..] && NUL in charstr[..]
    && (line != [] ==> CStr(addrstr[..]) == Take(LowerHex(start, 4), 9))
    && CStr(hexstr[..]) == HexColumn(line)
    && CStr(charstr[..]) == CharColumn(line)
  }

  /** Stores the line's address. */
  method StoreAddress(addrstr: array<char>, hexstr: array<char>, charstr: array<char>, start: nat)
    requires Pending(addrstr, hexstr, charstr, start, [])
    modifies addrstr
    ensures CStr(addrstr[..]) == Take(LowerHex(start, 4), 9)
    ensures Pending(addrstr, hexstr, charstr, start, [])
  {
    LowerHexShape(start, 4);
    SnPrintf(addrstr, LowerHex(start, 4));
  }

  /** Appends one byte to both pending columns, which then lack only the gap after
      the eighth byte. */
  method AppendByte(b: byte, bytestr: array<char>, addrstr: array<char>, hexstr: array<char>, charstr: array<char>,
                    ghost start: nat, ghost line: seq<byte>)
    requires bytestr.Length == 4 && bytestr !in {addrstr, hexstr, charstr}
    requires Pending(addrstr, hexstr, charstr, start, line) && |line| < 16
    requires CStr(addrstr[..]) == Take(LowerHex(start, 4), 9)
    modifies bytestr, hexstr, charstr
    ensures |line| != 7 ==> Pending(addrstr, hexstr, charstr, start, line + [b])
    ensures NUL in hexstr[..] && CStr(hexstr[..]) == HexColumn(line) + HexByte(b)
    ensures NUL in charstr[..] && CStr(charstr[..]) == CharColumn(line) + [Shown(b)]
  {
    hide HexColumn, CharColumn, LowerHex;
    PendingLengths(line);
    ColumnsStep(line, b);
    var c := b;
    if !IsAlnum(c) {
      c := '.' as byte;
    }
    SnPrintf(bytestr, HexByte(b));
    var len := StrLen(hexstr);
    StrNCat(hexstr, CStr(bytestr[..]), hexstr.Length - len - 1);

    SnPrintf(bytestr, [c as char]);
    len := StrLen(charstr);
    StrNCat(charstr, CStr(bytestr[..]), charstr.Length - len - 1);
  }

  /** Half a line is done: widens both pending columns. */
  method AppendGap(addrstr: array<char>, hexstr: array<char>, charstr: array<char>,
                   ghost start: nat, ghost line: seq<byte>, ghost b: byte)
    requires addrstr.Length == 10 && hexstr.Length == 53 && charstr.Length == 21
    requires addrstr != hexstr && addrstr != charstr && hexstr != charstr
    requires NUL in addrstr[..] && CStr(addrstr[..]) == Take(LowerHex(start, 4), 9)
    requires |line| == 7
    requires NUL in hexstr[..] && CStr(hexstr[..]) == HexColumn(line) + HexByte(b)
    requires NUL in charstr[..] && CStr(charstr[..]) == CharColumn(line) + [Shown(b)]
    modifies hexstr, charstr
    ensures Pending(addrstr, hexstr, charstr, start, line + [b])
  {
    PendingLengths(line);
    var len := StrLen(hexstr);
    StrNCat(hexstr, "  ", hexstr.Length - len - 1);
    len := StrLen(charstr);
    StrNCat(charstr, " ", charstr.Length - len - 1);
    ColumnsStep(line, b);
  }

  /** Formats the pending line into `buf` and hands it to the log callback. */
  method FlushLine(buf: array<char>, addrstr: array<char>, hexstr: array<char>, charstr: array<char>,
                   ghost start: nat, ghost line: seq<byte>)
    returns (logged: string)
    requires buf.Length == 1024 && buf !in {addrstr, hexstr, charstr}
    requires 0 < |line| <= 16 && Pending(addrstr, hexstr, charstr, start, line)
    modifies buf
    ensures logged == Line(start, line)
  {
    FormatIsLine(start, line);
    LineFits(start, line);
    forall i | 0 <= i < buf.Length { buf[i] := NUL; }
    assert hexstr[..] == old(hexstr[..]) && charstr[..] == old(charstr[..]) && addrstr[..] == old(addrstr[..]);
    SnPrintf(buf, Format(CStr(addrstr[..]), CStr(hexstr[..]), CStr(charstr[..])));
    logged := CStr(buf[..]);
  }

  /** `hexstr[0] = 0; charstr[0] = 0;` */
  method ClearColumns(addrstr: array<char>, hexstr: array<char>, charstr: array<char>, ghost next: nat)
    requires addrstr.Length == 10 && hexstr.Length == 53 && charstr.Length == 21
    requires addrstr != hexstr && addrstr != charstr && hexstr != charstr
    requires NUL in addrstr[..]
    modifies hexstr, charstr
    ensures Pending(addrstr, hexstr, charstr, next, [])
  {
    hexstr[0] := NUL;
    charstr[0] := NUL;
    assert hexstr[..][0] == NUL && charstr[..][0] == NUL;
  }

  lemma SliceStep<T>(s: seq<T>, from: nat, to: nat)
    requires from <= to < |s|
    ensures s[from..to + 1] == s[from..to] + [s[to]]
  {
  }

  lemma Remainder16(n: nat, quotient: nat, rest: nat)
    requires n == 16 * quotient + rest && rest < 16
    ensures n % 16 == rest
  {
  }

  lemma Remainder8(n: nat, quotient: nat, rest: nat)
    requires n == 8 * quotient + rest && rest < 8
    ensures n % 8 == rest
  {
  }

  lemma PlaceOnLine(n: nat, row: nat, k: nat)
    requires n == 16 * row + k + 1 && k < 16
    ensures n % 16 == 1 <==> k == 0
    ensures n % 16 == 0 <==> k == 15
    ensures n % 8 == 0 <==> k == 7 || k == 15
  {
    if k < 7 {
      Remainder16(n, row, k + 1);
      Remainder8(n, 2 * row, k + 1);
    } else if k < 15 {
      Remainder16(n, row, k + 1);
      Remainder8(n, 2 * row + 1, k - 7);
    } else {
      Remainder16(n, row + 1, 0);
      Remainder8(n, 2 * row + 2, 0);
    }
  }

  lemma SliceAll<T>(s: seq<T>)
    ensures s[..|s|] == s
  {
  }

  /** The loop body for byte number `n`, counted from 1; `logged` is what it logs. */
  method FeedByte(b: byte, n: nat, bytestr: array<char>, buf: array<char>,
                  addrstr: array<char>, hexstr: array<char>, charstr: array<char>,
                  ghost row: nat, ghost line: seq<byte>)
    returns (logged: seq<string>)
    requires bytestr.Length == 4 && bytestr !in {addrstr, hexstr, charstr}
    requires buf.Length == 1024 && buf !in {addrstr, hexstr, charstr}
    requires |line| < 16 && n == 16 * row + |line| + 1
    requires Pending(addrstr, hexstr, charstr, 16 * row, line)
    modifies bytestr, buf, addrstr, hexstr, charstr
    ensures if |line| == 15
            then logged == [Line(16 * row, line + [b])] && Pending(addrstr, hexstr, charstr, n, [])
            else logged == [] && Pending(addrstr, hexstr, charstr, 16 * row, line + [b])
  {
    hide HexColumn, CharColumn, LowerHex, Line, CStr;
    PlaceOnLine(n, row, |line|);
    logged := [];
    if n % 16 == 1 {
      StoreAddress(addrstr, hexstr, charstr, n - 1);
    }
    AppendByte(b, bytestr, addrstr, hexstr, charstr, 16 * row, line);
    if n % 16 == 0 {
      var text := FlushLine(buf, addrstr, hexstr, charstr, 16 * row, line + [b]);
      logged := [text];
      ClearColumns(addrstr, hexstr, charstr, n);
    } else if n % 8 == 0 {
      AppendGap(addrstr, hexstr, charstr, 16 * row, line, b);
    }
  }

  /** What the buffers and the log hold after `n` bytes of `block`; `row` lines are out. */
  ghost predicate Progress(lines: seq<string>, addrstr: array<char>, hexstr: array<char>, charstr: array<char>,
                           block: seq<byte>, row: nat, n: nat)
    reads addrstr, hexstr, charstr
  {
    && 16 * row <= n < 16 * row + 16 && n <= |block|
    && lines == Dump(block[..16 * row])
    && Pending(addrstr, hexstr, charstr, 16 * row, block[16 * row..n])
  }

  lemma NoProgressYet(addrstr: array<char>, hexstr: array<char>, charstr: array<char>, block: seq<byte>)
    requires Pending(addrstr, hexstr, charstr, 0, [])
    ensures Progress([], addrstr, hexstr, charstr, block, 0, 0)
  {
    assert block[0..0] == [] && Dump(block[..0]) == [];
  }

  /** One turn of the loop. */
  method LogByte(b: byte, n: nat, bytestr: array<char>, buf: array<char>,
                 addrstr: array<char>, hexstr: array<char>, charstr: array<char>,
                 lines: seq<string>, ghost block: seq<byte>, ghost row: nat)
    returns (lines': seq<string>, ghost row': nat)
    requires bytestr.Length == 4 && bytestr !in {addrstr, hexstr, charstr}
    requires buf.Length == 1024 && buf !in {addrstr, hexstr, charstr}
    requires 0 < n <= |block| && b == block[n - 1]
    requires Progress(lines, addrstr, hexstr, charstr, block, row, n - 1)
    modifies bytestr, buf, addrstr, hexstr, charstr
    ensures Progress(lines', addrstr, hexstr, charstr, block, row', n)
  {
    hide HexColumn, CharColumn, LowerHex, Line, Dump;
    SliceStep(block, 16 * row, n - 1);
    var logged := FeedByte(b, n, bytestr, buf, addrstr, hexstr, charstr, row, block[16 * row..n - 1]);
    lines' := lines + logged;
    row' := row;
    if n == 16 * row + 16 {
      DumpLine(block, row, n);
      row' := row + 1;
    }
  }

  /** What is left in the buffers after the loop becomes the last line. */
  method LogRest(lines: seq<string>, buf: array<char>, addrstr: array<char>, hexstr: array<char>, charstr: array<char>,
                 ghost block: seq<byte>, ghost row: nat)
    returns (lines': seq<string>)
    requires buf.Length == 1024 && buf !in {addrstr, hexstr, charstr}
    requires Progress(lines, addrstr, hexstr, charstr, block, row, |block|)
    modifies buf
    ensures lines' == Dump(block)
  {
    lines' := lines;
    ghost var line := block[16 * row..];
    PendingLengths(line);
    SliceAll(block);
    var len := StrLen(hexstr);
    if len > 0 {
      var text := FlushLine(buf, addrstr, hexstr, charstr, 16 * row, line);
      lines' := lines' + [text];
      DumpLine(block, row, |block|);
    }
  }

  /** The zero-initialised buffers of a line. */
  method LineBuffers() returns (addrstr: array<char>, hexstr: array<char>, charstr: array<char>)
    ensures fresh(addrstr) && fresh(hexstr) && fresh(charstr)
    ensures Pending(addrstr, hexstr, charstr, 0, [])
  {
    addrstr := new char[10](_ => NUL);
    hexstr, charstr := new char[16 * 3 + 5], new char[16 * 1 + 5];
    assert addrstr[..][0] == NUL;
    ClearColumns(addrstr, hexstr, charstr, 0);
  }

  method Hexdump(data: array<byte>, size: nat) returns (lines: seq<string>)
    requires size <= data.Length
    ensures lines == Dump(data[..size])
  {
    hide Progress, Pending, Dump;
    lines := [];
    ghost var block, row := data[..size], 0;
    var bytestr, buf := new char[4], new char[1024];
    var addrstr, hexstr, charstr := LineBuffers();
    NoProgressYet(addrstr, hexstr, charstr, block);

    for n := 1 to size + 1
      invariant Progress(lines, addrstr, hexstr, charstr, block, row, n - 1)
    {
      lines, row := LogByte(data[n - 1], n, bytestr, buf, addrstr, hexstr, charstr, lines, block, row);
    }
    lines := LogRest(lines, buf, addrstr, hexstr, charstr, block, row);
  }
}
