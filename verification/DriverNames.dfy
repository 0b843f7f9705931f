/** The names drivers give their units, such as "tun12", and how they are read back. */
module DriverNames {
  import opened Common
  import opened IfRequest
  import opened DeviceState

  /** A numbered unit of a driver, tun or tap */
  datatype Unit = Unit(tap: bool, number: nat)

  function DriverName(u: Unit): (r: seq<byte>)
    ensures 0 !in r
  {
    Prefix(u.tap) + Decimal(u.number)
  }

  function ParseDecimal(s: seq<byte>): Option<nat> {
    if s == [] then None
    else
      var digit := s[|s| - 1];
      if !(48 <= digit <= 57) then None
      else if |s| == 1 then Some(digit - 48)
      else
        var high := ParseDecimal(s[..|s| - 1]);
        if high.None? then None else Some(10 * high.value + digit - 48)
  }

  /** The unit a driver name such as "tun12" stands for. */
  function ParseUnit(text: seq<byte>): Option<Unit> {
    if |text| < 3 || (text[..3] != Prefix(true) && text[..3] != Prefix(false)) then None
    else
      var number := ParseDecimal(text[3..]);
      if number.None? then None else Some(Unit(text[..3] == Prefix(true), number.value))
  }

  lemma {:induction false} DecimalParses(n: nat)
    ensures ParseDecimal(Decimal(n)) == Some(n)
    ensures n < 1000 ==> |Decimal(n)| <= 3
    ensures n < 100 ==> |Decimal(n)| <= 2
  {
    if n >= 10 {
      DecimalParses(n / 10);
      assert Decimal(n)[..|Decimal(n)| - 1] == Decimal(n / 10);
    }
  }

  /** Driver names stand for their units, so different units have different ones. */
  lemma DriverNameParses(u: Unit)
    ensures ParseUnit(DriverName(u)) == Some(u)
    ensures u.number < 1000 ==> |DriverName(u)| <= 6
  {
    DecimalParses(u.number);
    var text := DriverName(u);
    assert text[..3] == Prefix(u.tap) && text[3..] == Decimal(u.number);
    assert Prefix(true)[1] != Prefix(false)[1];
  }

  lemma {:induction false} NoLeadingZero(n: nat)
    ensures Decimal(n)[0] == 48 <==> n == 0
  {
    if n >= 10 {
      NoLeadingZero(n / 10);
    }
  }

  /** The letters of a name, and its digits: those of the unit, without leading zeros. */
  lemma DriverNameIs(u: Unit)
    ensures DriverName(u) == (if u.tap then [0x74, 0x61, 0x70] else [0x74, 0x75, 0x6e]) + DriverName(u)[3..]
    ensures ParseDecimal(DriverName(u)[3..]) == Some(u.number)
    ensures |DriverName(u)| > 3 && (DriverName(u)[3] == 48 ==> u.number == 0)
  {
    DecimalParses(u.number);
    NoLeadingZero(u.number);
    hide Decimal, ParseDecimal;
    assert DriverName(u)[3..] == Decimal(u.number);
  }

  /** The code writes numbers with `%i`. */
  lemma SignedName(tap: bool, n: nat)
    ensures Prefix(tap) + Signed(n) == DriverName(Unit(tap, n))
  {
  }

  /** A number below zero names no unit. */
  lemma NegativeNamesNothing(tap: bool, n: int)
    requires n < 0
    ensures ParseUnit(Prefix(tap) + Signed(n)).None?
  {
    var text := Prefix(tap) + Signed(n);
    assert text[3..] == [45] + Decimal(-n);
    MinusDoesNotParse(Decimal(-n));
  }

  lemma {:induction false} MinusDoesNotParse(s: seq<byte>)
    ensures ParseDecimal([45] + s).None?
  {
    if s != [] {
      MinusDoesNotParse(s[..|s| - 1]);
      assert ([45] + s)[..|s|] == [45] + s[..|s| - 1];
    }
  }
}
