/** tuntap-unix-openbsd.c: the scan for a unit that opens, judged by the number of
    the descriptor it gets. */
module OpenBsd {
  import opened Common
  import opened IfRequest
  import opened DeviceState
  import opened DriverNames
  import opened FreeBsdKernel

  /** `fd` is the number open(2) must give: the lowest not in use. */
  ghost predicate IsLowestFree(files: map<int, File>, fd: int) {
    fd >= 0 && fd !in files && forall low | 0 <= low < fd :: low in files
  }

  class Host {
    var files: map<int, File>
    var openable: set<Unit>          // units whose device node opens
    var flags: map<seq<byte>, int16> // interface flags by name
    ghost var faults: nat            // flag requests that failed so far without cause

    constructor (files: map<int, File>, openable: set<Unit>, flags: map<seq<byte>, int16>)
      ensures this.files == files && this.openable == openable && this.flags == flags
      ensures faults == 0
    {
      this.files, this.openable, this.flags := files, openable, flags;
      faults := 0;
    }

    /** open(2) of a device node */
    method OpenNode(node: seq<byte>) returns (fd: int)
      modifies this`files
      ensures Opens(openable, node) ==>
        IsLowestFree(old(files), fd) && files == old(files)[fd := Tun(ParseUnit(node).value)]
      ensures !Opens(openable, node) ==> fd == -1 && files == old(files)
    {
      var parsed := ParseUnit(node);
      if parsed.None? || parsed.value !in openable {
        return -1;
      }
      fd := LowestFree(files.Keys);
      files := files[fd := Tun(parsed.value)];
    }

    /** SIOCGIFFLAGS */
    method GetFlags(req: array<byte>) returns (r: int)
      requires req.Length == REQUEST
      modifies req, this`faults
      ensures faults >= old(faults)
      ensures r == -1 ==> faults > old(faults) || NameOf(req[..]) !in flags
      ensures NameOf(req[..]) == old(NameOf(req[..])) && req[..16] == old(req[..16])
      ensures r == -1 || r == 0
      ensures r == 0 ==> NameOf(req[..]) in flags && ShortOf(req[..]) == flags[NameOf(req[..])]
    {
      var fails: bool := *;
      var name := NameOf(req[..]);
      if fails {
        faults := faults + 1;
        return -1;
      }
      if name !in flags {
        return -1;
      }
      PutShort(req, flags[name]);
      r := 0;
    }

    /** SIOCSIFFLAGS */
    method SetFlags(req: array<byte>) returns (r: int)
      requires req.Length == REQUEST
      modifies this`flags, this`faults
      ensures faults >= old(faults)
      ensures r == -1 || r == 0
      ensures r == -1 ==> flags == old(flags) && (faults > old(faults) || NameOf(req[..]) !in flags)
      ensures r == 0 ==> flags == old(flags)[NameOf(req[..]) := ShortOf(req[..])]
    {
      var fails: bool := *;
      if fails {
        faults := faults + 1;
        return -1;
      }
      if NameOf(req[..]) !in flags {
        return -1;
      }
      flags := flags[NameOf(req[..]) := ShortOf(req[..])];
      r := 0;
    }
  }

  predicate Opens(openable: set<Unit>, node: seq<byte>) {
    ParseUnit(node).Some? && ParseUnit(node).value in openable
  }

  // ---- The scan ------------------------------------------------------------------

  /** The first unit from `n` on that opens, or 256. */
  function NextOpenable(openable: set<Unit>, tap: bool, n: nat): (r: nat)
    requires n <= ID_MAX
    ensures n <= r <= ID_MAX
    ensures forall v: nat | n <= v < r :: Unit(tap, v) !in openable
    ensures r < ID_MAX ==> Unit(tap, r) in openable
    decreases ID_MAX - n
  {
    if n == ID_MAX || Unit(tap, n) in openable then n else NextOpenable(openable, tap, n + 1)
  }

  ghost predicate NoneOpens(openable: set<Unit>, tap: bool, from: nat, to: nat) {
    forall v: nat | from <= v < to :: Unit(tap, v) !in openable
  }

  /** What the scan hands on: a descriptor or -1, the unit it stopped at, and the
      table. Descriptor 0 does not stop it. */
  ghost predicate Scanned(files: map<int, File>, openable: set<Unit>, tap: bool,
                          fd: int, unit: nat, files': map<int, File>) {
    var first := NextOpenable(openable, tap, 0);
    if first == ID_MAX then fd == -1 && unit == ID_MAX && files' == files
    else if 0 in files then
      unit == first && IsLowestFree(files, fd) && files' == files[fd := Tun(Unit(tap, first))]
    else
      var taken := files[0 := Tun(Unit(tap, first))];
      var second := NextOpenable(openable, tap, first + 1);
      if second < ID_MAX then
        unit == second && IsLowestFree(taken, fd) && files' == taken[fd := Tun(Unit(tap, second))]
      else
        unit == ID_MAX && fd == (if first == ID_MAX - 1 then 0 else -1) && files' == taken
  }

  /** `fd` is open on the least unit that opens, and nothing else was opened. */
  ghost predicate PicksLeast(files: map<int, File>, openable: set<Unit>, tap: bool,
                             fd: int, unit: nat, files': map<int, File>) {
    && unit < ID_MAX && Unit(tap, unit) in openable
    && (forall v: nat | v < unit :: Unit(tap, v) !in openable)
    && IsLowestFree(files, fd) && files' == files[fd := Tun(Unit(tap, unit))]
  }

  /** The scan finds the least unit exactly when descriptor 0 is in use. */
  lemma ScanIsFirstFitExactlyWhen(files: map<int, File>, openable: set<Unit>, tap: bool,
                                  fd: int, unit: nat, files': map<int, File>)
    requires Scanned(files, openable, tap, fd, unit, files')
    requires NextOpenable(openable, tap, 0) < ID_MAX
    ensures PicksLeast(files, openable, tap, fd, unit, files') <==> 0 in files
  {
    assert 0 !in files ==> unit != NextOpenable(openable, tap, 0);
  }

  /** The scan adds the descriptors `added`, all of units of the right kind. */
  ghost predicate Adds(files: map<int, File>, files': map<int, File>, tap: bool, added: set<int>) {
    && added !! files.Keys && files'.Keys == files.Keys + added
    && (forall fd | fd in files :: files'[fd] == files[fd])
    && (forall fd | fd in added :: files'[fd].Tun? && files'[fd].unit.tap == tap)
  }

  ghost function Leftovers(files: map<int, File>, openable: set<Unit>, tap: bool, fd: int): set<int> {
    (if NoneOpens(openable, tap, 0, ID_MAX) || 0 in files then {} else {0}) + (if fd == -1 then {} else {fd})
  }

  /** Whatever becomes of its result, the scan leaves something open exactly when some
      unit opens: the descriptor it returns, and descriptor 0 if that was free. */
  lemma ScanLeaves(files: map<int, File>, openable: set<Unit>, tap: bool,
                   fd: int, unit: nat, files': map<int, File>)
    requires Scanned(files, openable, tap, fd, unit, files')
    ensures files' == files <==> NoneOpens(openable, tap, 0, ID_MAX)
    ensures Adds(files, files', tap, Leftovers(files, openable, tap, fd))
  {
    var first := NextOpenable(openable, tap, 0);
    if first < ID_MAX {
      assert Unit(tap, first) in openable;
      assert (if 0 in files then fd else 0) !in files && (if 0 in files then fd else 0) in files';
    }
  }

  /** The name of a unit the scan can stop at is not cut short. */
  lemma UnitNameFits(tap: bool, unit: nat)
    requires unit <= ID_MAX
    ensures Take(Prefix(tap) + Decimal(unit), 15) == DriverName(Unit(tap, unit))
  {
    DecimalParses(unit);
  }

  class Device {
    var flags: int
    const ifName: array<byte>

    ghost predicate Valid() {
      ifName.Length == 17
    }

    constructor ()
      ensures Valid() && fresh(ifName)
    {
      ifName := new byte[17](_ => 0);
      flags := 0;
    }

    /** The loop of tuntap_sys_start for TUNTAP_ID_ANY. */
    method Scan(host: Host, tap: bool) returns (fd: int, unit: nat)
      modifies host`files
      ensures Scanned(old(host.files), host.openable, tap, fd, unit, host.files)
      ensures unit <= ID_MAX
    {
      hide NextOpenable;
      fd, unit := -1, 0;
      ghost var files, openable := host.files, host.openable;
      ghost var first := NextOpenable(openable, tap, 0);
      while unit < ID_MAX
        invariant unit <= ID_MAX
        invariant unit <= first ==> host.files == files && fd == -1
        invariant unit > first ==>
          && 0 !in files && host.files == files[0 := Tun(Unit(tap, first))]
          && fd == (if unit == first + 1 then 0 else -1)
          && NoneOpens(openable, tap, first + 1, unit)
      {
        fd := OpenUnit(host, tap, unit);
        if fd > 0 {
          break;
        }
        unit := unit + 1;
      }
      if first < ID_MAX {
        ghost var second := NextOpenable(openable, tap, first + 1);
        assert unit > first ==> NoneOpens(openable, tap, first + 1, unit);
      }
    }

    /** Opens `/dev/<prefix><unit>`. */
    method OpenUnit(host: Host, tap: bool, unit: nat) returns (fd: int)
      modifies host`files
      ensures Unit(tap, unit) in host.openable ==>
        IsLowestFree(old(host.files), fd) && host.files == old(host.files)[fd := Tun(Unit(tap, unit))]
      ensures Unit(tap, unit) !in host.openable ==> fd == -1 && host.files == old(host.files)
    {
      DriverNameParses(Unit(tap, unit));
      assert Prefix(tap) + Signed(unit) == DriverName(Unit(tap, unit));
      fd := host.OpenNode(Prefix(tap) + Signed(unit));
    }

    /** tuntap_sys_start for TUNTAP_ID_ANY, after the mode has been checked. It closes
        nothing: a failed start leaves a descriptor open whenever some unit opens. */
    method StartAny(host: Host, tap: bool) returns (fd: int, ghost unit: nat, ghost got: int)
      requires Valid()
      modifies this`flags, ifName, host
      ensures Scanned(old(host.files), host.openable, tap, got, unit, host.files)
      ensures fd == got || fd == -1
      ensures Adds(old(host.files), host.files, tap, Leftovers(old(host.files), host.openable, tap, got))
      ensures fd == -1 ==> (host.files == old(host.files) <==> NoneOpens(host.openable, tap, 0, 256))
      ensures host.faults == old(host.faults) ==>
        (fd != -1 <==> got != -1 && got != 256 && DriverName(Unit(tap, unit)) in host.flags)
      ensures fd == -1 ==> flags == old(flags)
      ensures fd == -1 ==> ifName[..] == old(ifName[..]) || Text(ifName[..]) == DriverName(Unit(tap, unit))
      ensures fd != 256 && host.openable == old(host.openable) && host.flags == old(host.flags)
      ensures fd != -1 ==>
        var name := DriverName(Unit(tap, unit));
        && Text(ifName[..]) == name && name in host.flags && flags == host.flags[name]
    {
      hide Scanned, Adds, Leftovers;
      var n;
      fd, n := Scan(host, tap);
      ScanLeaves(old(host.files), host.openable, tap, fd, n, host.files);
      unit, got := n, fd;
      if fd == -1 || fd == 256 {
        return -1, unit, got;
      }
      UnitNameFits(tap, n);
      var r := SaveInterface(host, Prefix(tap) + Signed(n));
      if r == -1 {
        fd := -1;
      }
    }

    /** Saves the name, and the flags after setting them back as they are. */
    method SaveInterface(host: Host, name: seq<byte>) returns (r: int)
      requires Valid() && 0 !in name
      modifies this`flags, ifName, host`flags, host`faults
      ensures host.flags == old(host.flags)
      ensures r == -1 || r == 0
      ensures host.faults >= old(host.faults)
      ensures r == -1 ==> host.faults > old(host.faults) || Take(name, 15) !in host.flags
      ensures r == -1 ==> flags == old(flags)
      ensures Text(ifName[..]) == Take(name, 15)
      ensures r == 0 ==>
        Text(ifName[..]) == Take(name, 15) && Take(name, 15) in host.flags && flags == host.flags[Take(name, 15)]
    {
      var req := new byte[REQUEST];
      ClearRequest(req);
      PutName(req, name);
      TextIs(req[..16], Take(name, 15));
      SaveText(ifName, req);
      r := host.GetFlags(req);
      if r == -1 {
        return;
      }
      r := host.SetFlags(req);
      if r == -1 {
        return;
      }
      flags := ShortOf(req[..]);
    }
  }

  /** With descriptors 0 and 256 never handed out, as a process with a standard input
      and few files has it: success is the least unit, exhaustion leaves no trace. */
  lemma ScanInOrdinaryProcess(files: map<int, File>, openable: set<Unit>, tap: bool,
                              fd: int, unit: nat, files': map<int, File>)
    requires Scanned(files, openable, tap, fd, unit, files') && 0 in files && !IsLowestFree(files, 256)
    ensures fd != 0 && fd != 256
    ensures fd != -1 <==> exists v: nat :: v < 256 && Unit(tap, v) in openable
    ensures fd != -1 ==> PicksLeast(files, openable, tap, fd, unit, files') && unit < 256
    ensures fd == -1 ==> files' == files
  {
  }
}
