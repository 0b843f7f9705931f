/** `struct device` as a value, and the parts of its calls that are the same on
    every Unix (private.h, tuntap.h, tuntap-unix.c). */
module DeviceState {
  import opened Common
  import opened IfRequest

  const ID_MAX := 256
  const ID_ANY := 257
  const MODE_ETHERNET := 1
  const MODE_TUNNEL := 2
  const IF_NAMESIZE := 16

  datatype Dev = Dev(tunFd: int, ctrlSock: int, flags: int, hwaddr: Mac, ifName: NameBuffer) {
    predicate Started() {
      tunFd != -1
    }

    /** The name as requests carry it to the kernel. */
    function Name(): seq<byte> {
      Text(ifName[..15])
    }
  }

  const FreshDev := Dev(-1, -1, 0, Zeros(6), Zeros(17))

  // ---- The mode argument -------------------------------------------------------

  /** `mode & TUNTAP_MODE_PERSIST`, for negative numbers too. */
  predicate WantsPersist(mode: int) {
    mode / 4 % 2 == 1
  }

  /** `mode & ~TUNTAP_MODE_PERSIST` */
  function BareMode(mode: int): int {
    if WantsPersist(mode) then mode - 4 else mode
  }

  predicate ValidMode(mode: int) {
    BareMode(mode) == MODE_ETHERNET || BareMode(mode) == MODE_TUNNEL
  }

  /** "tap" or "tun" */
  function Prefix(tap: bool): seq<byte> {
    if tap then [0x74, 0x61, 0x70] else [0x74, 0x75, 0x6e]
  }

  // ---- What calls do to the device -----------------------------------------------

  /** `flags |= IFF_UP` and `flags &= ~IFF_UP` on 16 bits */
  function Raise(flags: int16): int16 {
    if flags % 2 == 0 then flags + 1 else flags
  }

  function Lower(flags: int16): int16 {
    if flags % 2 == 0 then flags else flags - 1
  }

  function SetUp(flags: int, up: bool): int16 {
    if up then Raise(Narrow(flags)) else Lower(Narrow(flags))
  }

  /** tuntap_set_ifname clears sixteen bytes and copies the name over them. */
  function DevAfterRename(d: Dev, name: seq<byte>): Dev
    requires |name| <= IF_NAMESIZE
  {
    d.(ifName := Pad(name, 16) + [d.ifName[16]])
  }

  lemma NameAfterRename(d: Dev, name: seq<byte>)
    requires |name| <= IF_NAMESIZE && 0 !in name
    ensures DevAfterRename(d, name).Name() == Take(name, 15)
    ensures DevAfterRename(d, name).ifName[16] == d.ifName[16]
  {
    TextOfPad(name, 16, 15);
    assert DevAfterRename(d, name).ifName[..15] == Pad(name, 16)[..15];
  }

  /** A random address: the two low bits of its first byte are cleared. */
  function RandomMac(random: seq<int>): Mac
    requires |random| == 6
  {
    var bytes := seq(6, i requires 0 <= i < 6 => random[i] % 256);
    bytes[0 := bytes[0] - bytes[0] % 4]
  }

  /** The three mode bits, whatever the bits above them. */
  lemma ModeBits(high: int, low: nat)
    requires low < 8
    ensures WantsPersist(8 * high + low) <==> low >= 4
    ensures BareMode(8 * high + low) == 8 * high + if low >= 4 then low - 4 else low
    ensures ValidMode(8 * high + low) <==> high == 0 && (low == 1 || low == 2 || low == 5 || low == 6)
  {
  }

  /** The two bits below 4 of the first byte are zero, all other bits are as drawn. */
  lemma RandomMacIs(random: seq<int>)
    requires |random| == 6
    ensures RandomMac(random)[0] % 4 == 0 && 0 <= random[0] % 256 - RandomMac(random)[0] < 4
    ensures forall i | 1 <= i < 6 :: RandomMac(random)[i] == random[i] % 256
  {
  }
}
