/** `struct ifreq`: a 16-byte name field followed by a 24-byte union, as the
    library fills it in and as the kernel reads it. */
module IfRequest {
  import opened Common

  const REQUEST := 40

  /** An interface name as the kernel holds it: the name field less its NUL. */
  type Name = s: seq<byte> | 0 < |s| <= 15 && 0 !in s witness [0x74]
  type Mac = s: seq<byte> | |s| == 6 witness [0, 0, 0, 0, 0, 0]
  type NameBuffer = s: seq<byte> | |s| == 17 witness Zeros(17)
  type int16 = x: int | -0x8000 <= x < 0x8000

  function Zeros(n: nat): seq<byte> {
    seq(n, _ => 0)
  }

  /** `s` in a field of `n` bytes, zeros after it. */
  function Pad(s: seq<byte>, n: nat): seq<byte>
    requires |s| <= n
  {
    s + Zeros(n - |s|)
  }

  /** The bytes before the first zero. */
  function Text(s: seq<byte>): (r: seq<byte>)
    ensures r <= s && 0 !in r
  {
    if s == [] || s[0] == 0 then [] else [s[0]] + Text(s[1..])
  }

  function Decimal(n: nat): (r: seq<byte>)
    ensures |r| > 0 && 0 !in r
  {
    if n < 10 then [48 + n] else Decimal(n / 10) + [48 + n % 10]
  }

  /** `%i` */
  function Signed(n: int): (r: seq<byte>)
    ensures |r| > 0 && 0 !in r
  {
    if n < 0 then [45] + Decimal(-n) else Decimal(n)
  }

  lemma {:induction false} TextIs(s: seq<byte>, text: seq<byte>)
    requires text <= s && 0 !in text
    requires |text| == |s| || s[|text|] == 0
    ensures Text(s) == text
  {
    if text != [] {
      TextIs(s[1..], text[1..]);
    }
  }

  lemma {:induction false} TextEnds(s: seq<byte>)
    requires |Text(s)| < |s|
    ensures s[|Text(s)|] == 0
  {
    if s[0] != 0 {
      TextEnds(s[1..]);
    }
  }

  /** Reading the first `k` bytes of a padded field. */
  lemma TextOfPad(s: seq<byte>, n: nat, k: nat)
    requires |s| <= n && k <= n && 0 !in s
    ensures Text(Pad(s, n)[..k]) == Take(s, k)
  {
    TextIs(Pad(s, n)[..k], Take(s, k));
  }

  // ---- What the kernel reads ---------------------------------------------------

  /** The kernel ends the name field itself, at its last byte. */
  function NameOf(req: seq<byte>): seq<byte>
    requires |req| == REQUEST
  {
    Text(req[..15])
  }

  function NewNameOf(req: seq<byte>): seq<byte>
    requires |req| == REQUEST
  {
    Text(req[16..31])
  }

  function ShortOf(req: seq<byte>): int16
    requires |req| == REQUEST
  {
    Short(req[16], req[17])
  }

  function MacOf(req: seq<byte>): Mac
    requires |req| == REQUEST
  {
    req[18..24]
  }

  // ---- How requests are filled in ----------------------------------------------

  /** `(short)x` */
  function Narrow(x: int): int16 {
    (x + 0x8000) % 0x1_0000 - 0x8000
  }

  lemma NarrowFits(x: int16)
    ensures Narrow(x) == x
    ensures Short(x % 256, x / 256 % 256) == x
  {
  }

  /** `memset(&ifr, 0, sizeof ifr)` */
  method ClearRequest(req: array<byte>)
    requires req.Length == REQUEST
    modifies req
    ensures req[..] == Zeros(REQUEST)
  {
    for i := 0 to REQUEST
      invariant forall j | 0 <= j < i :: req[j] == 0
    {
      req[i] := 0;
    }
  }

  /** Clears the request and copies the whole 17-byte name buffer over its 16-byte
      name field: the last byte spills into the union. */
  method CopyName(req: array<byte>, name: array<byte>)
    requires req.Length == REQUEST && name.Length == 17 && req != name
    modifies req
    ensures NameOf(req[..]) == Text(name[..15])
    ensures req[16] == name[16]
    ensures forall i | 17 <= i < REQUEST :: req[i] == 0
  {
    ClearRequest(req);
    for i := 0 to 17
      invariant forall j | 0 <= j < i :: req[j] == name[j]
      invariant forall j | 17 <= j < REQUEST :: req[j] == 0
    {
      req[i] := name[i];
    }
    assert req[..][..15] == name[..15];
  }

  /** Clears the request and copies the name with `strncpy(..., 16)`: stops after
      the first zero byte, and pads. */
  method CopyNameText(req: array<byte>, name: array<byte>)
    requires req.Length == REQUEST && name.Length == 17 && req != name
    modifies req
    ensures NameOf(req[..]) == Text(name[..15])
    ensures forall i | 16 <= i < REQUEST :: req[i] == 0
  {
    ClearRequest(req);
    var i := 0;
    while i < 16 && name[i] != 0
      invariant i <= 16
      invariant req[..i] == name[..i] && 0 !in name[..i]
      invariant forall j | i <= j < REQUEST :: req[j] == 0
    {
      req[i] := name[i];
      i := i + 1;
    }
    TextIs(req[..][..15], req[..Min(i, 15)]);
    TextIs(name[..15], name[..Min(i, 15)]);
  }

  /** Clears the request and copies the name with `strlcpy(..., 16)`: at most fifteen
      bytes and a zero. */
  method CopyNameBounded(req: array<byte>, name: array<byte>)
    requires req.Length == REQUEST && name.Length == 17 && req != name
    modifies req
    ensures NameOf(req[..]) == Text(name[..15])
    ensures forall i | 15 <= i < REQUEST :: req[i] == 0
  {
    ClearRequest(req);
    var i := 0;
    while i < 15 && name[i] != 0
      invariant i <= 15
      invariant req[..i] == name[..i] && 0 !in name[..i]
      invariant forall j | i <= j < REQUEST :: req[j] == 0
    {
      req[i] := name[i];
      i := i + 1;
    }
    TextIs(req[..][..15], req[..i]);
    TextIs(name[..15], name[..i]);
  }

  /** Stores a `short` at the start of the union. */
  method PutShort(req: array<byte>, x: int16)
    requires req.Length == REQUEST
    modifies req
    ensures NameOf(req[..]) == old(NameOf(req[..])) && ShortOf(req[..]) == x
    ensures req[..16] == old(req[..16]) && req[18..] == old(req[18..])
    ensures 256 * req[17] as int + req[16] as int == x % 0x1_0000
  {
    req[16] := x % 256;
    req[17] := x / 256 % 256;
    NarrowFits(x);
    assert req[..][..15] == old(req[..])[..15];
  }

  /** Stores the address family and the six bytes of a link-layer address. */
  method PutMac(req: array<byte>, family: int16, mac: Mac)
    requires req.Length == REQUEST
    modifies req
    ensures NameOf(req[..]) == old(NameOf(req[..])) && MacOf(req[..]) == mac && ShortOf(req[..]) == family
    ensures req[18..24] == mac
  {
    PutShort(req, family);
    for i := 0 to 6
      invariant forall j | 0 <= j < i :: req[18 + j] == mac[j]
      invariant req[..16] == old(req[..16]) && ShortOf(req[..]) == family
    {
      req[18 + i] := mac[i];
    }
    assert req[..][..15] == req[..16][..15] == old(req[..])[..15];
    assert req[..][18..24] == mac;
  }

  /** `strncpy(ifr_newname, name, strlen(name))`: no terminator of its own. */
  method PutNewName(req: array<byte>, name: seq<byte>)
    requires req.Length == REQUEST && |name| <= 16 && 0 !in name
    requires forall i | 16 <= i < REQUEST :: req[i] == 0
    modifies req
    ensures NameOf(req[..]) == old(NameOf(req[..])) && NewNameOf(req[..]) == Take(name, 15)
    ensures req[16..16 + |name|] == name
  {
    for i := 0 to |name|
      invariant forall j | 0 <= j < i :: req[16 + j] == name[j]
      invariant forall j | 16 + i <= j < REQUEST :: req[j] == 0
      invariant req[..16] == old(req[..16])
    {
      req[16 + i] := name[i];
    }
    assert req[..][..15] == req[..16][..15] == old(req[..])[..15];
    TextIs(req[..][16..31], Take(name, 15));
  }

  /** `snprintf(ifr_name, sizeof ifr_name, ...)` */
  method PutName(req: array<byte>, text: seq<byte>)
    requires req.Length == REQUEST && 0 !in text
    modifies req
    ensures NameOf(req[..]) == Take(text, 15) && ShortOf(req[..]) == old(ShortOf(req[..]))
    ensures var n := Min(15, |text|);
      req[..n] == text[..n] && req[n] == 0 && req[n + 1..] == old(req[n + 1..])
  {
    var n := Min(15, |text|);
    for i := 0 to n
      invariant forall j | 0 <= j < i :: req[j] == text[j]
      invariant req[n..] == old(req[n..])
    {
      req[i] := text[i];
    }
    assert req[n..][1..] == old(req[n..])[1..];
    req[n] := 0;
    TextIs(req[..][..15], Take(text, 15));
    assert req[n + 1..][15 - n] == old(req[n + 1..])[15 - n] && req[n + 1..][16 - n] == old(req[n + 1..])[16 - n];
  }

  /** `strlcpy(if_name, ifr_name, sizeof if_name)`: the text of the name field and a
      zero; the rest of the buffer stays. */
  method SaveText(ifName: array<byte>, req: array<byte>)
    requires ifName.Length == 17 && req.Length == REQUEST && req != ifName
    requires |Text(req[..16])| <= 15
    modifies ifName
    ensures Text(ifName[..15]) == Text(req[..16]) == Text(ifName[..]) && ifName[16] == old(ifName[16])
  {
    ghost var text := Text(req[..16]);
    TextEnds(req[..16]);
    var i := 0;
    while req[i] != 0
      invariant i <= |text|
      invariant ifName[..i] == text[..i] && ifName[16] == old(ifName[16])
      decreases |text| - i
    {
      ifName[i] := req[i];
      i := i + 1;
    }
    ifName[i] := 0;
    TextIs(ifName[..15], text);
    TextIs(ifName[..], text);
  }

  /** `memset(if_name, 0, 16); strncpy(if_name, name, strlen(name))` */
  method StoreName(ifName: array<byte>, name: seq<byte>)
    requires ifName.Length == 17 && |name| <= 16
    modifies ifName
    ensures ifName[..] == Pad(name, 16) + [old(ifName[16])]
  {
    forall i | 0 <= i < 16 { ifName[i] := 0; }
    forall i | 0 <= i < |name| { ifName[i] := name[i]; }
  }
}
