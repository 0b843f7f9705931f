/** The block checksum of tuntap_log.c: signed 16-bit words added up in an `int`,
    an odd last byte added as a signed `char`, then complemented. */
module Checksum {
  import opened Common

  newtype int32 = x: int | -0x8000_0000 <= x < 0x8000_0000

  function SignedChar(b: byte): (c: int)
    ensures -128 <= c <= 127
  {
    if b >= 128 then b - 256 else b
  }

  function Words(data: seq<byte>): (ws: seq<int>)
    ensures |ws| == |data| / 2
  {
    seq(|data| / 2, i requires 0 <= 2 * i < |data| - 1 => Short(data[2 * i], data[2 * i + 1]))
  }

  function OddByte(data: seq<byte>): int {
    if |data| % 2 == 1 then SignedChar(data[|data| - 1]) else 0
  }

  function Sum(ws: seq<int>): int {
    if ws == [] then 0 else Sum(ws[..|ws| - 1]) + ws[|ws| - 1]
  }

  lemma SumStep(ws: seq<int>, k: nat)
    requires k < |ws|
    ensures Sum(ws[..k + 1]) == Sum(ws[..k]) + ws[k]
  {
    assert ws[..k + 1][..k] == ws[..k];
  }

  function Total(data: seq<byte>): int {
    Sum(Words(data)) + OddByte(data)
  }

  /** The value the log line is about. */
  function Value(data: seq<byte>): int {
    -1 - Total(data)
  }

  /** No partial sum leaves the range of `int`; in C anything else is undefined. */
  ghost predicate NoOverflow(data: seq<byte>) {
    && (forall k | 0 <= k <= |Words(data)| :: InInt(Sum(Words(data)[..k])))
    && InInt(Total(data))
  }

  method Chksum(addr: array<byte>, count: int) returns (sum: int32)
    requires count <= addr.Length
    requires NoOverflow(addr[..if count < 0 then 0 else count])
    ensures sum as int == Value(addr[..if count < 0 then 0 else count])
  {
    ghost var data := addr[..if count < 0 then 0 else count];
    ghost var ws := Words(data);
    var left, sptr: nat := count, 0;
    sum := 0;
    assert Sum(ws[..0]) == 0;
    while left > 1
      invariant sptr <= |ws| && left == count - 2 * sptr
      invariant count >= 0 ==> left >= 0
      invariant sum as int == Sum(ws[..sptr])
    {
      SumStep(ws, sptr);
      assert ws[sptr] == Short(addr[2 * sptr], addr[2 * sptr + 1]) && InInt(Sum(ws[..sptr + 1]));
      sum := sum + Short(addr[2 * sptr], addr[2 * sptr + 1]) as int32;
      left := left - 2;
      sptr := sptr + 1;
    }
    assert ws[..sptr] == ws;
    if left > 0 {
      sum := sum + SignedChar(addr[2 * sptr]) as int32;
    }
    sum := -1 - sum;
  }

  /** One byte alone is a signed `char`, */
  lemma ValueOfByte(b: byte)
    ensures Value([b]) == if b < 128 then -1 - b else 255 - b
  {
    assert Words([b]) == [];
  }

  /** and two are a signed word, low byte first. With Concatenation this settles the
      value of every block. */
  lemma ValueOfPair(low: byte, high: byte)
    ensures Value([low, high]) == if high < 128 then -1 - low - 256 * high else 65535 - low - 256 * high
  {
    var data := [low, high];
    assert Words(data) == [Short(low, high)];
    assert Sum([Short(low, high)]) == Sum([]) + Short(low, high);
  }

  // ---- How long a block may be -----------------------------------------------

  lemma {:induction false} SumBounds(ws: seq<int>)
    requires forall i | 0 <= i < |ws| :: -32768 <= ws[i] <= 32767
    ensures -32768 * |ws| <= Sum(ws) <= 32767 * |ws|
  {
    if ws != [] {
      SumBounds(ws[..|ws| - 1]);
    }
  }

  lemma ShortBlocksAreSafe(data: seq<byte>)
    requires |data| <= 131072
    ensures NoOverflow(data)
  {
    var ws := Words(data);
    forall k | 0 <= k <= |ws|
      ensures InInt(Sum(ws[..k]))
    {
      SumBounds(ws[..k]);
    }
    SumBounds(ws);
  }

  /** Words of -32768, and -128 for an odd last byte. */
  function WorstBlock(n: nat): seq<byte> {
    seq(n, i => if i % 2 == 1 || i == n - 1 then 0x80 else 0)
  }

  lemma {:induction false} WorstSum(n: nat, k: nat)
    requires k <= n / 2
    ensures Sum(Words(WorstBlock(n))[..k]) == -32768 * k
  {
    var ws := Words(WorstBlock(n));
    if k > 0 {
      WorstSum(n, k - 1);
      assert ws[..k][..k - 1] == ws[..k - 1];
      assert ws[k - 1] == Short(0, 0x80);
    }
  }

  lemma LongBlocksOverflow(n: nat)
    requires n > 131072
    ensures |WorstBlock(n)| == n && !NoOverflow(WorstBlock(n))
  {
    var data := WorstBlock(n);
    if n == 131073 {
      WorstSum(n, 65536);
      assert Words(data)[..65536] == Words(data);
      assert Total(data) == -32768 * 65536 - 128;
    } else {
      WorstSum(n, 65537);
    }
  }

  /** 131072 bytes is exactly how long every block may safely be. */
  lemma SafeLengths(n: nat)
    ensures (forall data: seq<byte> | |data| == n :: NoOverflow(data)) <==> n <= 131072
  {
    if n <= 131072 {
      forall data: seq<byte> | |data| == n
        ensures NoOverflow(data)
      {
        ShortBlocksAreSafe(data);
      }
    } else {
      LongBlocksOverflow(n);
    }
  }

  // ---- Laws ------------------------------------------------------------------

  lemma {:induction false} SumAppend(a: seq<int>, b: seq<int>)
    ensures Sum(a + b) == Sum(a) + Sum(b)
  {
    if b == [] {
      assert a + b == a;
    } else {
      assert (a + b)[..|a + b| - 1] == a + b[..|b| - 1];
      SumAppend(a, b[..|b| - 1]);
    }
  }

  lemma WordsAppend(a: seq<byte>, b: seq<byte>)
    requires |a| % 2 == 0
    ensures Words(a + b) == Words(a) + Words(b)
  {
    var ab, wa, wb := a + b, Words(a), Words(b);
    forall i | 0 <= i < |wa| + |wb|
      ensures Words(ab)[i] == (wa + wb)[i]
    {
      if i < |wa| {
        assert ab[2 * i] == a[2 * i] && ab[2 * i + 1] == a[2 * i + 1];
      } else {
        var j := i - |wa|;
        assert ab[2 * i] == b[2 * j] && ab[2 * i + 1] == b[2 * j + 1];
      }
    }
  }

  lemma Concatenation(a: seq<byte>, b: seq<byte>)
    requires |a| % 2 == 0
    ensures Value(a + b) == Value(a) + Value(b) + 1
  {
    WordsAppend(a, b);
    SumAppend(Words(a), Words(b));
  }

  lemma SumWithoutOne(before: seq<int>, w: int, after: seq<int>)
    ensures Sum(before + [w] + after) == Sum(before + after) + w
  {
    assert (before + [w])[..|before|] == before;
    SumAppend(before + [w], after);
    SumAppend(before, after);
  }

  lemma {:induction false} SumPermutation(a: seq<int>, b: seq<int>)
    requires multiset(a) == multiset(b)
    ensures Sum(a) == Sum(b)
    decreases |a|, 1
  {
    if a == [] {
      assert |multiset(b)| == 0;
    } else {
      var w := a[|a| - 1];
      assert w in multiset(b);
      var i :| 0 <= i < |b| && b[i] == w;
      assert a == a[..|a| - 1] + [w] && b == b[..i] + [w] + b[i + 1..];
      SumPermutationStep(a[..|a| - 1], w, b[..i], b[i + 1..]);
    }
  }

  lemma {:induction false} SumPermutationStep(init: seq<int>, w: int, before: seq<int>, after: seq<int>)
    requires multiset(init + [w]) == multiset(before + [w] + after)
    ensures Sum(init + [w]) == Sum(before + [w] + after)
    decreases |init + [w]|, 0
  {
    assert multiset(init) == multiset(init + [w]) - multiset{w};
    assert multiset(before + after) == multiset(before + [w] + after) - multiset{w};
    SumPermutation(init, before + after);
    SumWithoutOne(before, w, after);
    SumAppend(init, [w]);
    assert Sum([w]) == w by { assert [w][..0] == []; }
  }

  /** The checksum does not see the order of the words. */
  lemma WordOrderIsInvisible(a: seq<byte>, b: seq<byte>)
    requires multiset(Words(a)) == multiset(Words(b)) && OddByte(a) == OddByte(b)
    ensures Value(a) == Value(b)
  {
    SumPermutation(Words(a), Words(b));
  }
}
