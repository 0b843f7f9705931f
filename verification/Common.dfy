/** Definitions every part of the model uses. */
module Common {

  type byte = b: int | 0 <= b < 256

  datatype Option<+T> = None | Some(value: T)

  function Min(a: nat, b: nat): nat {
    if a < b then a else b
  }

  function Take<T>(s: seq<T>, n: nat): seq<T> {
    s[..Min(n, |s|)]
  }

  predicate InInt(x: int) {
    -0x8000_0000 <= x < 0x8000_0000
  }

  /** A `short` in memory, low byte first. */
  function Short(low: byte, high: byte): (w: int)
    ensures -32768 <= w <= 32767
  {
    var u := low + 256 * high;
    if u >= 32768 then u - 65536 else u
  }

  /** The lowest number not in use, as POSIX has it for descriptors. */
  method LowestFree(used: set<int>) returns (n: nat)
    ensures n !in used
    ensures forall low | 0 <= low < n :: low in used
  {
    n := 0;
    ghost var below: set<int> := {};
    while n in used
      invariant forall low | 0 <= low < n :: low in used
      invariant below <= used && forall low :: low in below <==> 0 <= low < n
      decreases used - below
    {
      below := below + {n};
      n := n + 1;
    }
  }
}
