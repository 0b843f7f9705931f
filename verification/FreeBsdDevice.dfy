/** tuntap-unix-freebsd.c under tuntap-unix.c and tuntap.c: unit allocation, start,
    rename and the two-step destroy. */
module FreeBsdDevice {
  import opened Common
  import opened IfRequest
  import opened DeviceState
  import opened DriverNames
  import opened FreeBsdKernel

  /** `n` is the first free unit of the driver, or 256 when all are taken. */
  ghost predicate FirstFit(k: Kernel, tap: bool, n: int) {
    && 0 <= n <= ID_MAX
    && (forall v: nat | v < n :: Unit(tap, v) in k.ifs)
    && (n < ID_MAX ==> Unit(tap, n) !in k.ifs)
  }

  /** `k'` has unit `u` besides what `k` has. */
  ghost predicate Gains(k: Kernel, k': Kernel, u: Unit) {
    && u !in k.ifs && k.Find(DriverName(u)).None?
    && u in k'.ifs && k'.ifs[u].name == DriverName(u) && k' == k.Update(u, k'.ifs[u])
  }

  /** The unit a start works on, and what preparing it did. */
  ghost predicate Prepared(k: Kernel, k': Kernel, mode: int, tun: int, n: int) {
    var tap := BareMode(mode) == MODE_ETHERNET;
    if tun == ID_ANY then
      FirstFit(k, tap, n) && (if n < ID_MAX then Gains(k, k', Unit(tap, n)) else k' == k)
    else
      && tun < ID_MAX && n == tun
      && (if WantsPersist(mode) then n >= 0 && Gains(k, k', Unit(tap, n)) else k' == k)
  }

  /** The kernel after a start that opened `fd` on unit `u`. */
  ghost predicate OpenedUnit(k: Kernel, k': Kernel, fd: int, u: Unit) {
    && k.Unused(fd) && u in k'.ifs
    && k'.files == k.files[fd := Tun(u)]
    && k'.ifs == k.ifs[u := k'.ifs[u]]
    && (u in k.ifs ==> k'.ifs == k.ifs)
  }

  /** What a successful system start leaves in the device, the socket aside. */
  ghost predicate Remembers(k: Kernel, d: Dev, u: Unit) {
    u in k.ifs && d.Name() == k.ifs[u].name && d.flags == k.ifs[u].flags
  }

  /** The number rule of a successful start. */
  ghost predicate RightUnit(k: Kernel, mode: int, tun: int, u: Unit) {
    && u.tap == (BareMode(mode) == MODE_ETHERNET)
    && (if tun == ID_ANY then FirstFit(k, u.tap, u.number)
        else u.number == tun < ID_MAX && (WantsPersist(mode) ==> u !in k.ifs))
  }

  /** What a failed start may leave: nothing, the unit it created, or that unit or an
      older one with a descriptor open on it. */
  ghost predicate Remains(k: Kernel, k': Kernel, mode: int, tun: int, u: Unit) {
    k' == k ||
    (RightUnit(k, mode, tun, u) && (Gains(k, k', u) || exists fd :: fd in k'.files && OpenedUnit(k, k', fd, u)))
  }

  lemma NothingRemains(k: Kernel, mode: int, tun: int, u: Unit)
    ensures Remains(k, k, mode, tun, u)
  {
  }

  lemma PreparedRemains(k: Kernel, k1: Kernel, mode: int, tun: int, n: int, u: Unit)
    requires ValidMode(mode) && Prepared(k, k1, mode, tun, n)
    requires n >= 0 ==> u == Unit(BareMode(mode) == MODE_ETHERNET, n)
    ensures Remains(k, k1, mode, tun, u)
  {
  }

  /** The same without the control socket, which is closed again. */
  lemma RemainsWithoutSocket(k: Kernel, sock: int, k': Kernel, mode: int, tun: int, u: Unit)
    requires k.Unused(sock) && Remains(k.Open(sock, Socket), k', mode, tun, u)
    ensures Remains(k, k'.Close(sock), mode, tun, u)
  {
    var open, closed := k.Open(sock, Socket), k'.Close(sock);
    if k' == open {
      assert closed.files == k.files;
    } else if Gains(open, k', u) {
      assert closed.files == k.files;
    } else {
      var fd :| fd in k'.files && OpenedUnit(open, k', fd, u);
      assert closed.files == k.files[fd := Tun(u)];
      assert OpenedUnit(k, closed, fd, u) && fd in closed.files;
    }
  }

  /** There is a unit a start for these arguments works on, and nothing is in its way. */
  ghost predicate Startable(k: Kernel, mode: int, tun: int) {
    ValidMode(mode) && exists u :: RightUnit(k, mode, tun, u) && k.MayOpen(u, DriverName(u))
  }

  /** The unit a start works on, by the numbers of tuntap.h. */
  lemma RightUnitIs(k: Kernel, mode: int, tun: int, u: Unit)
    ensures ValidMode(mode) <==> mode == 1 || mode == 2 || mode == 5 || mode == 6
    ensures ValidMode(mode) ==> (RightUnit(k, mode, tun, u) <==>
      && u.tap == (mode == 1 || mode == 5)
      && if tun == 257 then
           && u.number <= 256 && (forall v: nat | v < u.number :: Unit(u.tap, v) in k.ifs)
           && (u.number < 256 ==> u !in k.ifs)
         else u.number == tun && tun < 256 && (mode == 5 || mode == 6 ==> u !in k.ifs))
  {
    assert Unit(u.tap, u.number) == u;
  }

  lemma OneRightUnit(k: Kernel, mode: int, tun: int, u: Unit, v: Unit)
    requires RightUnit(k, mode, tun, u) && RightUnit(k, mode, tun, v)
    ensures u == v
  {
    assert Unit(u.tap, u.number) == u && Unit(v.tap, v.number) == v;
  }

  /** If the right unit cannot be opened, nothing can be started. */
  lemma NotStartable(k: Kernel, mode: int, tun: int, u: Unit)
    requires RightUnit(k, mode, tun, u) && !k.MayOpen(u, DriverName(u))
    ensures !Startable(k, mode, tun)
  {
    forall v | RightUnit(k, mode, tun, v)
      ensures !k.MayOpen(v, DriverName(v))
    {
      OneRightUnit(k, mode, tun, u, v);
    }
  }

  /** A socket makes no difference to that. */
  lemma StartableWithSocket(k: Kernel, sock: int, mode: int, tun: int)
    requires k.Unused(sock)
    ensures Startable(k.Open(sock, Socket), mode, tun) <==> Startable(k, mode, tun)
  {
    var open := k.Open(sock, Socket);
    forall u
      ensures RightUnit(open, mode, tun, u) <==> RightUnit(k, mode, tun, u)
      ensures open.MayOpen(u, DriverName(u)) <==> k.MayOpen(u, DriverName(u))
    {
      SameUnit(k, sock, u);
    }
  }

  lemma RightUnitWithSocket(k: Kernel, sock: int, mode: int, tun: int)
    ensures forall u :: RightUnit(k.Open(sock, Socket), mode, tun, u) <==> RightUnit(k, mode, tun, u)
  {
  }

  lemma SameUnit(k: Kernel, sock: int, u: Unit)
    requires k.Unused(sock)
    ensures k.Open(sock, Socket).MayOpen(u, DriverName(u)) <==> k.MayOpen(u, DriverName(u))
  {
    var open := k.Open(sock, Socket);
    if fd :| fd in k.files && k.files[fd] == Tun(u) {
      assert fd in open.files && open.files[fd] == Tun(u);
    }
  }

  /** A named unit that has to be created cannot be started if it exists, or its name is
      taken, or there can be no such unit. */
  lemma CannotCreate(k: Kernel, mode: int, tun: int)
    requires ValidMode(mode) && WantsPersist(mode) && tun < ID_MAX
    requires tun >= 0 ==>
      var u := Unit(BareMode(mode) == MODE_ETHERNET, tun); u in k.ifs || k.Find(DriverName(u)).Some?
    ensures !Startable(k, mode, tun)
  {
    forall v | RightUnit(k, mode, tun, v)
      ensures !k.MayOpen(v, DriverName(v))
    {
      assert v == Unit(BareMode(mode) == MODE_ETHERNET, tun);
    }
  }

  /** Nor can the first free unit. */
  lemma CannotCreateAny(k: Kernel, mode: int, n: int)
    requires ValidMode(mode) && var tap := BareMode(mode) == MODE_ETHERNET;
      FirstFit(k, tap, n) && n < ID_MAX && k.Find(DriverName(Unit(tap, n))).Some?
    ensures !Startable(k, mode, ID_ANY)
  {
    NotStartable(k, mode, ID_ANY, Unit(BareMode(mode) == MODE_ETHERNET, n));
  }

  /** Once prepared, the unit opens unless nothing could be started. */
  lemma PreparedOpens(k: Kernel, k1: Kernel, mode: int, tun: int, n: int)
    requires k.Wf() && ValidMode(mode) && Prepared(k, k1, mode, tun, n)
    ensures k1.files == k.files && (n < 0 ==> !Startable(k, mode, tun) && k1 == k)
    ensures n >= 0 ==>
      var u := Unit(BareMode(mode) == MODE_ETHERNET, n);
      && RightUnit(k, mode, tun, u)
      && (k1.MayOpen(u, DriverName(u)) <==> Startable(k, mode, tun))
      && (Startable(k, mode, tun) || k1 == k)
  {
    if n >= 0 {
      var u := Unit(BareMode(mode) == MODE_ETHERNET, n);
      DriverNameParses(u);
      if k1 != k {
        assert Gains(k, k1, u) && !k.Held(u);
        assert !k1.Held(u);
      }
      if !k.MayOpen(u, DriverName(u)) {
        NotStartable(k, mode, tun, u);
      }
    }
  }

  lemma OpensPrepared(k: Kernel, k1: Kernel, k2: Kernel, mode: int, tun: int, n: int, fd: int, u: Unit)
    requires ValidMode(mode) && Prepared(k, k1, mode, tun, n)
    requires n == u.number && u.tap == (BareMode(mode) == MODE_ETHERNET)
    requires k1.Unused(fd) && u in k2.ifs && k2 == Kernel(k1.files[fd := Tun(u)], k1.ifs[u := k2.ifs[u]])
    requires u in k1.ifs ==> k2.ifs == k1.ifs
    ensures OpenedUnit(k, k2, fd, u) && RightUnit(k, mode, tun, u) && Remains(k, k2, mode, tun, u)
  {
  }

  // ---- The life of a started device, as steps on values -------------------------------

  /** The device holds unit `u`, and knows its name. */
  ghost predicate Owns(k: Kernel, d: Dev, u: Unit) {
    && d.Started() && d.tunFd in k.files && k.files[d.tunFd] == Tun(u)
    && k.IsSocket(d.ctrlSock)
    && u in k.ifs && k.ifs[u].name == d.Name()
  }

  ghost predicate MayRenameDev(k: Kernel, d: Dev, name: seq<byte>) {
    0 !in name && |name| <= IF_NAMESIZE && k.IsSocket(d.ctrlSock) && k.MayRename(d.Name(), name)
  }

  ghost function KernelAfterRename(k: Kernel, d: Dev, name: seq<byte>): Kernel
    requires MayRenameDev(k, d, name)
  {
    var u := k.Find(d.Name()).value;
    k.Update(u, k.ifs[u].(name := name))
  }

  /** `ok` says whether the kernel removed the interface. */
  ghost predicate MayDestroy(k: Kernel, d: Dev, ok: bool) {
    var k' := k.Close(d.tunFd);
    ok ==> k'.IsSocket(d.ctrlSock) && k'.Find(d.Name()).Some? && !k'.Held(k'.Find(d.Name()).value)
  }

  ghost function KernelAfterSysDestroy(k: Kernel, d: Dev, ok: bool): Kernel
    requires MayDestroy(k, d, ok)
  {
    var k' := k.Close(d.tunFd);
    if ok then k'.Remove(k'.Find(d.Name()).value) else k'
  }

  function KernelAfterRelease(k: Kernel, d: Dev): Kernel {
    (if d.tunFd != -1 then k.Close(d.tunFd) else k).Close(d.ctrlSock)
  }

  class Device {
    var tunFd: int
    var ctrlSock: int
    var flags: int
    const hwaddr: array<byte>
    const ifName: array<byte>

    ghost predicate Valid() {
      hwaddr.Length == 6 && ifName.Length == 17 && hwaddr != ifName
    }

    ghost function State(): Dev
      requires Valid()
      reads this, hwaddr, ifName
    {
      Dev(tunFd, ctrlSock, flags, hwaddr[..], ifName[..])
    }

    constructor ()
      ensures Valid() && fresh(hwaddr) && fresh(ifName)
      ensures State() == FreshDev == Dev(-1, -1, 0, [0, 0, 0, 0, 0, 0], seq(17, _ => 0))
    {
      hwaddr := new byte[6](_ => 0);
      ifName := new byte[17](_ => 0);
      tunFd, ctrlSock, flags := -1, -1, 0;
    }

    /** tuntap_sys_create_dev: 1 when the unit was created, 0 when it existed. */
    method CreateDev(host: Host, tap: bool, unit: int) returns (r: int)
      requires host.k.Wf() && unit < 1000
      modifies host
      ensures host.faults >= old(host.faults)
      ensures host.k.Wf()
      ensures r == -1 || r == 0 || r == 1
      ensures r != 1 ==> host.k == old(host.k)
      ensures r == -1 ==>
        || host.faults > old(host.faults) || !host.k.IsSocket(ctrlSock) || unit < 0
        || (Unit(tap, unit) !in host.k.ifs && host.k.Find(DriverName(Unit(tap, unit))).Some?)
      ensures r == 0 ==> unit >= 0 && Unit(tap, unit) in host.k.ifs
      ensures r == 1 ==> unit >= 0 && Gains(old(host.k), host.k, Unit(tap, unit))
    {
      var req := new byte[REQUEST];
      ClearRequest(req);
      var text := Prefix(tap) + Signed(unit);
      if unit < 0 {
        // "tun-1" and the like: at most fifteen bytes, since `unit` is an int
        NegativeIsCut(tap, unit);
      } else {
        DriverNameParses(Unit(tap, unit));
        assert text == DriverName(Unit(tap, unit));
      }
      PutName(req, text);
      assert |text| <= 15 ==> Take(text, 15) == text;
      var error := host.Create(ctrlSock, req);
      match error
      case Success => r := 1;
      case Exists => r := 0;
      case OtherError => r := -1;
    }

    /** The scan of tuntap_sys_start for TUNTAP_ID_ANY. */
    method CreateAny(host: Host, tap: bool) returns (r: int, unit: int)
      requires host.k.Wf()
      modifies host
      ensures host.faults >= old(host.faults)
      ensures host.k.Wf()
      ensures r == -1 || r == 0
      ensures r == -1 ==> host.k == old(host.k)
      ensures r == -1 ==>
        || host.faults > old(host.faults) || !host.k.IsSocket(ctrlSock)
        || (FirstFit(host.k, tap, unit) && unit < ID_MAX && host.k.Find(DriverName(Unit(tap, unit))).Some?)
      ensures r == 0 ==>
        && FirstFit(old(host.k), tap, unit)
        && (if unit < ID_MAX then Gains(old(host.k), host.k, Unit(tap, unit)) else host.k == old(host.k))
    {
      unit := 0;
      while unit < ID_MAX
        invariant 0 <= unit <= ID_MAX
        invariant host.k == old(host.k) && host.faults >= old(host.faults)
        invariant forall v: nat | v < unit :: Unit(tap, v) in host.k.ifs
      {
        var result := CreateDev(host, tap, unit);
        if result == -1 {
          return -1, unit;
        } else if result != 0 {
          return 0, unit;
        }
        unit := unit + 1;
      }
      r := 0;
    }

    /** The first part of tuntap_sys_start: which unit, and creating it if required. */
    method PrepareUnit(host: Host, mode: int, tun: int) returns (r: int, unit: int)
      requires host.k.Wf()
      modifies host
      ensures host.faults >= old(host.faults)
      ensures host.k.Wf()
      ensures r == -1 || r == 0
      ensures r == -1 ==> host.k == old(host.k)
      ensures r == -1 ==>
        host.faults > old(host.faults) || !host.k.IsSocket(ctrlSock) || !Startable(host.k, mode, tun)
      ensures r == 0 ==> ValidMode(mode) && Prepared(old(host.k), host.k, mode, tun, unit)
    {
      unit := tun;
      if !ValidMode(mode) {
        return -1, unit;
      }
      var tap := BareMode(mode) == MODE_ETHERNET;
      if unit < ID_MAX {
        if WantsPersist(mode) {
          var result := CreateDev(host, tap, unit);
          if result != 1 {
            if result == 0 || (host.faults == old(host.faults) && host.k.IsSocket(ctrlSock)) {
              CannotCreate(host.k, mode, tun);
            }
            return -1, unit;
          }
        }
        r := 0;
      } else if unit == ID_ANY {
        r, unit := CreateAny(host, tap);
        if r == -1 && host.faults == old(host.faults) && host.k.IsSocket(ctrlSock) {
          CannotCreateAny(host.k, mode, unit);
        }
      } else {
        r := -1;
      }
    }

    /** The last part of tuntap_sys_start: the interface's name, flags and address. */
    method SaveInterface(host: Host, fd: int, mode: int, ghost u: Unit) returns (r: int)
      requires Valid() && host.k.Wf() && fd in host.k.files && host.k.files[fd] == Tun(u)
      modifies this`flags, hwaddr, ifName, host`faults
      ensures host.faults >= old(host.faults)
      ensures r == -1 ==> host.faults > old(host.faults) || !host.k.IsSocket(ctrlSock)
      ensures r == -1 || r == 0
      ensures ifName[16] == old(ifName[16])
      ensures r == -1 ==> flags == old(flags) && hwaddr[..] == old(hwaddr[..])
      ensures r == -1 ==> ifName[..] == old(ifName[..]) || Text(ifName[..15]) == host.k.ifs[u].name
      ensures r == 0 ==> Remembers(host.k, State(), u)
      ensures r == 0 && BareMode(mode) != MODE_ETHERNET ==> hwaddr[..] == old(hwaddr[..])
      ensures r == 0 && BareMode(mode) == MODE_ETHERNET ==>
        || hwaddr[..] == host.k.ifs[u].mac
        || (hwaddr[..] == old(hwaddr[..]) && host.faults > old(host.faults))
    {
      var req := new byte[REQUEST];
      ClearRequest(req);
      r := host.GetName(fd, req);
      if r == -1 {
        return;
      }
      SaveText(ifName, req);
      label Named:
      r := host.GetFlags(ctrlSock, req);
      if r == -1 {
        return;
      }
      host.k.FindIs(u);
      flags := ShortOf(req[..]);
      if BareMode(mode) == MODE_ETHERNET {
        var read, mac := host.GetMac(fd);
        if read == 0 {
          forall i | 0 <= i < 6 { hwaddr[i] := mac[i]; }
          assert ifName[..] == old@Named(ifName[..]);
        }
      }
    }

    /** tuntap_sys_start; the control socket is open. */
    method SysStart(host: Host, mode: int, tun: int) returns (fd: int, ghost u: Unit)
      requires Valid() && host.k.Wf()
      modifies this`flags, hwaddr, ifName, host
      ensures host.faults >= old(host.faults)
      ensures host.k.Wf() && ifName[16] == old(ifName[16])
      ensures fd == -1 ==> Remains(old(host.k), host.k, mode, tun, u)
      ensures host.faults == old(host.faults) && old(host.k).IsSocket(ctrlSock) ==>
        && (fd != -1 <==> Startable(old(host.k), mode, tun))
        && (fd == -1 ==> host.k == old(host.k))
      ensures fd == -1 ==> flags == old(flags) && hwaddr[..] == old(hwaddr[..])
      ensures fd == -1 ==>
        ifName[..] == old(ifName[..]) || (u in host.k.ifs && Text(ifName[..15]) == host.k.ifs[u].name)
      ensures fd != -1 ==>
        && OpenedUnit(old(host.k), host.k, fd, u) && ValidMode(mode) && RightUnit(old(host.k), mode, tun, u)
        && Remembers(host.k, State(), u)
      ensures fd != -1 ==>
        if mode == 1 || mode == 5 then
          || hwaddr[..] == host.k.ifs[u].mac
          || (hwaddr[..] == old(hwaddr[..]) && host.faults > old(host.faults))
        else hwaddr[..] == old(hwaddr[..])
    {
      hide Startable, Remains, RightUnit, Prepared, Gains, Remembers, OpenedUnit, ParseUnit, DriverName, Signed;
      u := Unit(false, 0);
      NothingRemains(host.k, mode, tun, u);
      var r, unit := PrepareUnit(host, mode, tun);
      if r == -1 {
        return -1, u;
      }
      var tap := BareMode(mode) == MODE_ETHERNET;
      PreparedOpens(old(host.k), host.k, mode, tun, unit);
      if unit < 0 {
        NegativeNamesNothing(tap, unit);
      } else {
        u := Unit(tap, unit);
        DriverNameParses(u);
        SignedName(tap, unit);
      }
      ghost var k := host.k;
      PreparedRemains(old(host.k), k, mode, tun, unit, u);
      fd := host.OpenNode(Prefix(tap) + Signed(unit));
      if fd == -1 {
        return -1, u;
      }
      assert fd in host.k.files;
      OpensPrepared(old(host.k), k, host.k, mode, tun, unit, fd, u);
      r := SaveInterface(host, fd, mode, u);
      if r == -1 {
        return -1, u;
      }
    }

    /** tuntap_start */
    method Start(host: Host, mode: int, tun: int) returns (r: int, ghost u: Unit)
      requires Valid() && host.k.Wf() && InInt(mode) && InInt(tun)
      modifies this, hwaddr, ifName, host
      ensures host.faults >= old(host.faults)
      ensures host.k.Wf() && (r == 0 || r == -1)
      ensures r == -1 ==> Remains(old(host.k), host.k, mode, tun, u)
      ensures host.faults == old(host.faults) ==>
        && (r == 0 <==> old(tunFd) == -1 && !(WantsPersist(mode) && tun == ID_ANY) && Startable(old(host.k), mode, tun))
        && (r == -1 ==> host.k == old(host.k))
      ensures r == -1 ==> tunFd == old(tunFd) && flags == old(flags) && hwaddr[..] == old(hwaddr[..])
      ensures r == -1 ==>
        ifName[..] == old(ifName[..]) || (u in host.k.ifs && Text(ifName[..15]) == host.k.ifs[u].name)
      ensures r == 0 ==>
        && old(tunFd) == -1 && ValidMode(mode) && RightUnit(old(host.k), mode, tun, u)
        && old(host.k).Unused(ctrlSock) && old(host.k).Unused(tunFd) && tunFd != ctrlSock
        && host.k.files == old(host.k).files[ctrlSock := Socket][tunFd := Tun(u)]
        && Owns(host.k, State(), u) && flags == host.k.ifs[u].flags
        && host.k.ifs == old(host.k).ifs[u := host.k.ifs[u]]
      ensures r == 0 ==>
        if mode == 1 || mode == 5 then
          || hwaddr[..] == host.k.ifs[u].mac
          || (hwaddr[..] == old(hwaddr[..]) && host.faults > old(host.faults))
        else hwaddr[..] == old(hwaddr[..])
    {
      hide Startable, Remains, RightUnit;
      u := Unit(false, 0);
      NothingRemains(host.k, mode, tun, u);
      var fd, sock := -1, -1;
      if tunFd != -1 {
        return -1, u;
      }
      sock := host.OpenSocket();
      if sock == -1 {
        return -1, u;
      }
      ctrlSock := sock;
      ghost var k := old(host.k);
      StartableWithSocket(k, sock, mode, tun);
      RightUnitWithSocket(k, sock, mode, tun);
      NothingRemains(host.k, mode, tun, u);
      if !(WantsPersist(mode) && tun == ID_ANY) {
        fd, u := SysStart(host, mode, tun);
        if fd != -1 {
          tunFd := fd;
          return 0, u;
        }
      }
      RemainsWithoutSocket(k, sock, host.k, mode, tun, u);
      assert k.Open(sock, Socket).Close(sock).files == k.files;
      host.Close(sock);
      r := -1;
    }

    /** tuntap_set_ifname with tuntap_sys_set_ifname; `None` is a null pointer. */
    method SetIfname(host: Host, ifname: Option<seq<byte>>) returns (r: int)
      requires Valid() && host.k.Wf() && (ifname.Some? ==> 0 !in ifname.value)
      modifies ifName, host
      ensures host.faults >= old(host.faults)
      ensures host.k.Wf() && (r == 0 || r == -1)
      ensures r == -1 ==> host.k == old(host.k) && State() == old(State())
      ensures r == -1 ==>
        || host.faults > old(host.faults)
        || ifname.None? || !MayRenameDev(host.k, State(), ifname.value)
      ensures r == 0 ==>
        && ifname.Some? && MayRenameDev(old(host.k), old(State()), ifname.value)
        && host.k == KernelAfterRename(old(host.k), old(State()), ifname.value)
        && State() == DevAfterRename(old(State()), ifname.value)
    {
      if ifname.None? || |ifname.value| > IF_NAMESIZE {
        return -1;
      }
      var name := ifname.value;
      var req := new byte[REQUEST];
      CopyNameBounded(req, ifName);
      r := host.Rename(ctrlSock, req, name);
      if r == -1 {
        return;
      }
      if |Text(req[..15])| < 15 {
        TextEnds(req[..15]);
      }
      TextIs(req[..16], Text(req[..15]));
      SaveText(ifName, req);
      StoreName(ifName, name);
    }

    /** tuntap_sys_destroy: closes the descriptor early, or the kernel would not let go. */
    method SysDestroy(host: Host) returns (ghost ok: bool)
      requires Valid() && host.k.Wf()
      modifies this`tunFd, host
      ensures host.faults >= old(host.faults)
      ensures host.k.Wf()
      ensures MayDestroy(old(host.k), old(State()), ok)
      ensures !ok ==> host.faults > old(host.faults) || !MayDestroy(old(host.k), old(State()), true)
      ensures host.k == KernelAfterSysDestroy(old(host.k), old(State()), ok)
      ensures State() == old(State()).(tunFd := -1)
    {
      host.Close(tunFd);
      tunFd := -1;
      var req := new byte[REQUEST];
      CopyNameBounded(req, ifName);
      var r := host.Remove(ctrlSock, req);
      ok := r != -1;
    }

    /** tuntap_release; the device is gone afterwards. */
    method Release(host: Host)
      requires Valid()
      modifies host
      ensures host.faults >= old(host.faults)
      ensures host.k == KernelAfterRelease(old(host.k), State())
    {
      if tunFd != -1 {
        host.Close(tunFd);
      }
      host.Close(ctrlSock);
    }

    /** tuntap_destroy; the device is gone afterwards. */
    method Destroy(host: Host) returns (ghost ok: bool)
      requires Valid() && host.k.Wf()
      modifies this`tunFd, host
      ensures host.faults >= old(host.faults)
      ensures MayDestroy(old(host.k), old(State()), ok)
      ensures !ok ==> host.faults > old(host.faults) || !MayDestroy(old(host.k), old(State()), true)
      ensures var removed := KernelAfterSysDestroy(old(host.k), old(State()), ok);
        host.k == KernelAfterRelease(removed, old(State()).(tunFd := -1))
    {
      ok := SysDestroy(host);
      Release(host);
    }
  }

  /** A negative unit still names nothing after the name field cuts it short. */
  lemma NegativeIsCut(tap: bool, n: int)
    requires n < 0
    ensures ParseUnit(Take(Prefix(tap) + Signed(n), 15)).None?
  {
    var text := Prefix(tap) + Signed(n);
    var cut := Take(text, 15);
    var rest := cut[4..];
    assert cut[3..] == [45] + rest;
    MinusDoesNotParse(rest);
  }
}
