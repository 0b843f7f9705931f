/** tuntap.c, tuntap-unix.c and tuntap-unix-linux.c: the calls that change a device
    on Linux. Each method is tied to a step on values; LinuxTheorems says what whole
    runs of these steps keep. */
module LinuxDevice {
  import opened Common
  import opened IfRequest
  import opened DeviceState
  import opened LinuxKernel

  function ModeKind(mode: int): Kind {
    if BareMode(mode) == MODE_ETHERNET then TapKind else TunKind
  }

  /** The name asked for: none with TUNTAP_ID_ANY. */
  function WantedName(mode: int, tun: int): seq<byte> {
    if tun == ID_ANY then [] else Take(Prefix(BareMode(mode) == MODE_ETHERNET) + Signed(tun), 15)
  }

  // ---- tuntap_start as a step ----------------------------------------------------

  /** How a start ends. */
  datatype Outcome =
    | Refused                                                              // nothing happened
    | SockOnly(sock: int)                                                  // a socket was opened, and closed again
    | TunLeft(sock: int, fd: int, link: Link, persisted: bool)             // as before, but a tun descriptor stays open
    | Up(sock: int, fd: int, link: Link, macRead: bool)                    // success

  /** The kernel once descriptor `fd` has its link. */
  function Linked(k: Kernel, fd: int, link: Link, persist: bool): Kernel
    requires link.Existing? ==> link.id in k.ifs
  {
    var k' := k.Attach(fd, link);
    if persist && link != NoLink then k'.Persist(k.LinkedId(link), true) else k'
  }

  ghost predicate MayStart(k: Kernel, d: Dev, mode: int, tun: int, out: Outcome) {
    match out
    case Refused => true
    case SockOnly(sock) => !d.Started() && k.Unused(sock)
    case TunLeft(sock, fd, link, persisted) =>
      && !d.Started() && k.Unused(sock) && k.Unused(fd) && sock != fd
      && ValidMode(mode) && tun >= 0 && !(WantsPersist(mode) && tun == ID_ANY)
      && (link.NoLink? || k.MayLink(ModeKind(mode), WantedName(mode, tun), link))
      && (persisted ==> WantsPersist(mode) && link != NoLink)
    case Up(sock, fd, link, macRead) =>
      && !d.Started() && k.Unused(sock) && k.Unused(fd) && sock != fd
      && ValidMode(mode) && tun >= 0 && !(WantsPersist(mode) && tun == ID_ANY)
      && (tun != ID_ANY ==> fd <= ID_MAX)
      && k.MayLink(ModeKind(mode), WantedName(mode, tun), link)
      && (macRead ==> BareMode(mode) == MODE_ETHERNET)
  }

  function LinkedInterface(k: Kernel, link: Link): Interface
    requires link != NoLink && (link.Existing? ==> link.id in k.ifs)
  {
    if link.New? then link.iface else k.ifs[link.id]
  }

  function KernelAfterStart(k: Kernel, mode: int, out: Outcome): Kernel
    requires (out.TunLeft? || out.Up?) && out.link.Existing? ==> out.link.id in k.ifs
  {
    match out
    case Refused => k
    case SockOnly(sock) => k
    case TunLeft(sock, fd, link, persisted) => Linked(k, fd, link, persisted)
    case Up(sock, fd, link, macRead) => Linked(k, fd, link, WantsPersist(mode)).Open(sock, Socket)
  }

  function DevAfterStart(k: Kernel, d: Dev, out: Outcome): Dev
    requires (out.TunLeft? || out.Up?) && out.link.Existing? ==> out.link.id in k.ifs
    requires out.Up? ==> out.link != NoLink
  {
    match out
    case Refused => d
    case SockOnly(sock) => d.(ctrlSock := sock)
    case TunLeft(sock, fd, link, persisted) => d.(ctrlSock := sock)
    case Up(sock, fd, link, macRead) =>
      var i := LinkedInterface(k, link);
      Dev(fd, sock, i.flags, if macRead then i.mac else d.hwaddr, Pad(i.name, 16) + [d.ifName[16]])
  }

  /** How the system part of a start ends, and what each end leaves. */
  datatype SysOutcome =
    | NoTun
    | Left(fd: int, link: Link, persisted: bool)
    | Ready(fd: int, link: Link, macRead: bool)

  /** The interface asked for can be had: no other one has the name, or one of the same
      kind that no descriptor holds. */
  ghost predicate Available(k: Kernel, mode: int, tun: int) {
    k.Claimable(ModeKind(mode), WantedName(mode, tun))
  }

  /** Why the system part ends as it does when no system call fails without cause. The
      code compares the number of the descriptor, not of the unit, with the limit. */
  ghost predicate SysReason(k: Kernel, ctrlSock: int, mode: int, tun: int, out: SysOutcome) {
    match out
    case NoTun => !ValidMode(mode) || tun < 0
    case Left(fd, _, _) => (tun != ID_ANY && fd > ID_MAX) || !Available(k, mode, tun) || !k.IsSocket(ctrlSock)
    case Ready(_, _, macRead) => macRead == (BareMode(mode) == MODE_ETHERNET)
  }

  function Whole(sock: int, out: SysOutcome): Outcome {
    match out
    case NoTun => SockOnly(sock)
    case Left(fd, link, persisted) => TunLeft(sock, fd, link, persisted)
    case Ready(fd, link, macRead) => Outcome.Up(sock, fd, link, macRead)
  }

  /** The kernel and the device after the system part, which runs with the socket open. */
  ghost predicate SysEnds(k: Kernel, k': Kernel, d: Dev, d': Dev, mode: int, tun: int, out: SysOutcome) {
    match out
    case NoTun => k' == k && d' == d
    case Left(fd, link, persisted) =>
      && k.Unused(fd) && ValidMode(mode) && tun >= 0
      && (link.NoLink? || k.MayLink(ModeKind(mode), WantedName(mode, tun), link))
      && (persisted ==> WantsPersist(mode) && link != NoLink)
      && k' == Linked(k, fd, link, persisted) && d' == d
    case Ready(fd, link, macRead) =>
      && k.Unused(fd) && ValidMode(mode) && tun >= 0
      && (tun != ID_ANY ==> fd <= ID_MAX)
      && k.MayLink(ModeKind(mode), WantedName(mode, tun), link)
      && (macRead ==> BareMode(mode) == MODE_ETHERNET)
      && k' == Linked(k, fd, link, WantsPersist(mode))
      && d' == DevAfterStart(k, d, Outcome.Up(d.ctrlSock, fd, link, macRead)).(tunFd := d.tunFd)
  }

  lemma EndsLeft(k: Kernel, d: Dev, mode: int, tun: int, fd: int, link: Link, persisted: bool)
    requires k.Unused(fd) && ValidMode(mode) && tun >= 0
    requires link.NoLink? || k.MayLink(ModeKind(mode), WantedName(mode, tun), link)
    requires persisted ==> WantsPersist(mode) && link != NoLink
    ensures SysEnds(k, Linked(k, fd, link, persisted), d, d, mode, tun, Left(fd, link, persisted))
  {
  }

  lemma EndsReady(k: Kernel, d: Dev, d': Dev, mode: int, tun: int, fd: int, link: Link, macRead: bool)
    requires k.Unused(fd) && ValidMode(mode) && tun >= 0 && (tun != ID_ANY ==> fd <= ID_MAX)
    requires k.MayLink(ModeKind(mode), WantedName(mode, tun), link)
    requires macRead ==> BareMode(mode) == MODE_ETHERNET
    requires var i := LinkedInterface(k, link);
      d' == Dev(d.tunFd, d.ctrlSock, i.flags, if macRead then i.mac else d.hwaddr, Pad(i.name, 16) + [d.ifName[16]])
    ensures SysEnds(k, Linked(k, fd, link, WantsPersist(mode)), d, d', mode, tun, Ready(fd, link, macRead))
  {
  }

  /** TUNSETIFF answers the same before and after the clone device is opened. */
  lemma LinkAfterOpen(k: Kernel, fd: int, kind: Kind, name: seq<byte>, link: Link, persist: bool)
    requires k.Wf() && k.Unused(fd)
    requires link.NoLink? || k.Open(fd, Tun(None)).MayLink(kind, name, link)
    ensures link.NoLink? || k.MayLink(kind, name, link)
    ensures Linked(k.Open(fd, Tun(None)), fd, link, persist) == Linked(k, fd, link, persist)
    ensures Linked(k, fd, link, persist).Wf()
    ensures link != NoLink ==>
      var k', id := Linked(k, fd, link, persist), k.LinkedId(link);
      && k'.Holds(fd, id) && id in k'.ifs
      && k'.ifs[id] == LinkedInterface(k, link).(persist := persist || LinkedInterface(k, link).persist)
  {
    if link != NoLink {
      MayLinkAfterOpen(k, fd, Tun(None), kind, name, link);
    }
    LinkedWf(k, fd, kind, name, link, persist);
    assert k.Open(fd, Tun(None)).Attach(fd, link).files == k.Attach(fd, link).files;
  }

  /** What TUNSETIFF may do does not depend on descriptors without a link. */
  lemma MayLinkAfterOpen(k: Kernel, fd: int, file: File, kind: Kind, name: seq<byte>, link: Link)
    requires k.Wf() && k.Unused(fd) && link != NoLink && (file.Tun? ==> file.link.None?)
    ensures k.MayLink(kind, name, link) <==> k.Open(fd, file).MayLink(kind, name, link)
  {
    var k' := k.Open(fd, file);
    if link.Existing? {
      if k.Held(link.id) {
        var other :| k.Holds(other, link.id);
        assert k'.Holds(other, link.id);
      } else if k'.Held(link.id) {
        var other :| k'.Holds(other, link.id);
        assert k.Holds(other, link.id);
      }
    } else {
      SameFind(k, k', link.iface.name);
    }
  }

  lemma PersistFind(k: Kernel, id: nat, bit: bool, name: seq<byte>)
    requires k.Wf() && id in k.ifs
    ensures k.Persist(id, bit).Wf() && k.Persist(id, bit).Find(name) == k.Find(name)
  {
    var k' := k.Persist(id, bit);
    k.UpdateWf(id, k.ifs[id].(persist := bit));
    if k.Find(name).Some? {
      k'.FindIs(k.Find(name).value);
    }
  }

  /** Names are looked up among the interfaces only. */
  lemma SameFind(k: Kernel, k': Kernel, name: seq<byte>)
    requires k'.ifs == k.ifs
    ensures k'.Find(name).None? <==> k.Find(name).None?
  {
  }

  lemma LinkedWf(k: Kernel, fd: int, kind: Kind, name: seq<byte>, link: Link, persist: bool)
    requires k.Wf() && k.Unused(fd)
    requires link.NoLink? || k.MayLink(kind, name, link)
    ensures Linked(k, fd, link, persist).Wf()
    ensures link != NoLink ==>
      var k', id := Linked(k, fd, link, persist), k.LinkedId(link);
      && k'.Holds(fd, id) && id in k'.ifs
      && k'.ifs[id] == LinkedInterface(k, link).(persist := persist || LinkedInterface(k, link).persist)
  {
    var k' := k.Attach(fd, link);
    k.AttachWf(fd, kind, name, link);
    if link != NoLink {
      var id := k.LinkedId(link);
      k'.UpdateWf(id, k'.ifs[id].(persist := true));
    }
  }

  /** Descriptor `fd` holds interface `id`, which is `iface` but for its persistence, and
      is called `name`. */
  ghost predicate Granted(k: Kernel, fd: int, name: seq<byte>, id: nat, iface: Interface) {
    k.Holds(fd, id) && id in k.ifs && k.Find(name) == Some(id) && k.ifs[id] == iface.(persist := k.ifs[id].persist)
  }

  lemma LinkedNothing(k: Kernel, fd: int)
    requires k.Wf() && k.Unused(fd)
    ensures k.Open(fd, Tun(None)) == Linked(k, fd, NoLink, false)
  {
  }

  lemma AttachIsLinked(k: Kernel, fd: int, link: Link)
    requires k.Unused(fd) && (link.Existing? ==> link.id in k.ifs)
    ensures k.Open(fd, Tun(None)).Attach(fd, link) == Linked(k, fd, link, false)
    ensures link != NoLink ==>
      var id, k' := k.LinkedId(link), Linked(k, fd, link, false);
      k'.Holds(fd, id) && id in k'.ifs && Linked(k, fd, link, true) == k'.Persist(id, true)
  {
    assert k.Open(fd, Tun(None)).Attach(fd, link).files == k.Attach(fd, link).files;
  }

  lemma MayLinkExists(k: Kernel, kind: Kind, name: seq<byte>, link: Link)
    requires link.NoLink? || k.MayLink(kind, name, link)
    ensures link.Existing? ==> link.id in k.ifs
  {
  }

  lemma LinkedSockets(k: Kernel, fd: int, link: Link, persist: bool, sock: int)
    requires k.Unused(fd) && (link.Existing? ==> link.id in k.ifs)
    ensures Linked(k, fd, link, persist).IsSocket(sock) <==> k.IsSocket(sock)
  {
  }

  /** The system part between opening and closing the control socket. */
  lemma AroundSocket(k: Kernel, k': Kernel, sock: int, d: Dev, d': Dev, mode: int, tun: int, sys: SysOutcome)
    requires k.Wf() && k.Unused(sock) && !d.Started()
    requires SysEnds(k.Open(sock, Socket), k', d.(ctrlSock := sock), d', mode, tun, sys)
    requires WantsPersist(mode) && tun == ID_ANY ==> sys.NoTun?
    ensures MayStart(k, d, mode, tun, Whole(sock, sys))
    ensures KernelAfterStart(k, mode, Whole(sock, sys)) == if sys.Ready? then k' else k'.Close(sock)
    ensures DevAfterStart(k, d, Whole(sock, sys)) == if sys.Ready? then d'.(tunFd := sys.fd) else d'
  {
    var open, whole := k.Open(sock, Socket), Whole(sock, sys);
    if !sys.NoTun? {
      if sys.link != NoLink {
        MayLinkAfterOpen(k, sock, Socket, ModeKind(mode), WantedName(mode, tun), sys.link);
      }
      SocketAside(k, sock, sys.fd, sys.link, if sys.Left? then sys.persisted else WantsPersist(mode));
    }
    assert open.Close(sock).files == k.files;
  }

  /** A socket opened before the interface is claimed might as well be opened after. */
  lemma SocketAside(k: Kernel, sock: int, fd: int, link: Link, persist: bool)
    requires k.Unused(sock) && k.Open(sock, Socket).Unused(fd) && (link.Existing? ==> link.id in k.ifs)
    ensures var before, after := Linked(k.Open(sock, Socket), fd, link, persist), Linked(k, fd, link, persist);
      before == after.Open(sock, Socket) && before.Close(sock) == after
  {
    var before, after := Linked(k.Open(sock, Socket), fd, link, persist), Linked(k, fd, link, persist);
    assert before.files == after.files[sock := Socket];
    assert before.files - {sock} == after.files;
  }

  // ---- How a start ends when no system call fails ----------------------------------

  /** The descriptors of a start are the lowest free ones, the socket's first. */
  ghost predicate Numbered(k: Kernel, out: Outcome) {
    match out
    case Refused => true
    case SockOnly(sock) => k.Lowest(sock)
    case TunLeft(sock, fd, _, _) => k.Lowest(sock) && k.Open(sock, Socket).Lowest(fd)
    case Up(sock, fd, _, _) => k.Lowest(sock) && k.Open(sock, Socket).Lowest(fd)
  }

  ghost predicate Reason(k: Kernel, d: Dev, mode: int, tun: int, out: Outcome) {
    match out
    case Refused => d.Started()
    case SockOnly(_) => !ValidMode(mode) || tun < 0 || (WantsPersist(mode) && tun == ID_ANY)
    case TunLeft(_, fd, _, _) => (tun != ID_ANY && fd > ID_MAX) || !Available(k, mode, tun)
    case Up(_, _, _, macRead) => macRead == (BareMode(mode) == MODE_ETHERNET)
  }

  /** The arguments and the device do not rule a start out. */
  predicate Usable(d: Dev, mode: int, tun: int) {
    !d.Started() && ValidMode(mode) && tun >= 0 && !(WantsPersist(mode) && tun == ID_ANY)
  }

  /** At most one of the descriptor numbers 0 to 256 is free. */
  ghost predicate Crowded(k: Kernel) {
    forall a, b | 0 <= a < b <= ID_MAX :: a in k.files || b in k.files
  }

  lemma SecondLowest(k: Kernel, sock: int, fd: int)
    requires k.Lowest(sock) && k.Open(sock, Socket).Lowest(fd)
    ensures Crowded(k) <==> fd > ID_MAX
  {
    var open := k.Open(sock, Socket);
    assert sock < fd && fd !in k.files;
    if fd > ID_MAX {
      forall a, b | 0 <= a < b <= ID_MAX
        ensures a in k.files || b in k.files
      {
        assert a in open.files && b in open.files;
      }
    }
  }

  /** The unit asked for, if any, can be had. */
  ghost predicate GetsUnit(k: Kernel, mode: int, tun: int) {
    tun != ID_ANY ==> !Crowded(k) && Available(k, mode, tun)
  }

  /** What TUNSETIFF did it had no reason to turn down, */
  lemma LinkedWasClaimable(k: Kernel, kind: Kind, name: seq<byte>, link: Link)
    requires k.Wf() && kind != Ordinary && k.MayLink(kind, name, link)
    ensures k.Claimable(kind, name)
  {
    if link.Existing? {
      k.FindIs(link.id);
    }
  }

  /** and descriptors without a link make no difference. */
  lemma ClaimableAfterOpen(k: Kernel, fd: int, file: File, kind: Kind, name: seq<byte>)
    requires k.Wf() && k.Unused(fd) && (file.Tun? ==> file.link.None?)
    ensures k.Claimable(kind, name) <==> k.Open(fd, file).Claimable(kind, name)
  {
    var k' := k.Open(fd, file);
    k.OpenWf(fd, file);
    if k.Find(name).Some? {
      var id := k.Find(name).value;
      k'.FindIs(id);
      assert forall other :: k.Holds(other, id) <==> k'.Holds(other, id);
      assert k.Held(id) <==> k'.Held(id);
    }
  }

  /** When no system call fails without cause, a start with usable arguments succeeds,
      unless it asks for a unit it cannot have, because that is taken or the process is
      crowded: then it fails, and leaves a descriptor open. */
  lemma EndsExactlyWhen(k: Kernel, d: Dev, mode: int, tun: int, out: Outcome)
    requires k.Wf() && MayStart(k, d, mode, tun, out) && Numbered(k, out) && Reason(k, d, mode, tun, out)
    ensures out.Up? <==> Usable(d, mode, tun) && GetsUnit(k, mode, tun)
    ensures out.TunLeft? <==> Usable(d, mode, tun) && !GetsUnit(k, mode, tun)
  {
    if out.TunLeft? || out.Up? {
      SecondLowest(k, out.sock, out.fd);
      assert tun == ID_ANY ==> Available(k, mode, tun);
    }
    if out.Up? {
      LinkedWasClaimable(k, ModeKind(mode), WantedName(mode, tun), out.link);
    }
  }

  lemma NumbersOf(k: Kernel, sock: int, d: Dev, mode: int, tun: int, sys: SysOutcome)
    requires k.Wf() && k.Lowest(sock) && (!sys.NoTun? ==> k.Open(sock, Socket).Lowest(sys.fd))
    requires MayStart(k, d, mode, tun, Whole(sock, sys))
    ensures var out := Whole(sock, sys);
      && Numbered(k, out)
      && ((WantsPersist(mode) && tun == ID_ANY) || SysReason(k.Open(sock, Socket), sock, mode, tun, sys) ==>
            && Reason(k, d, mode, tun, out)
            && (out.Up? <==> Usable(d, mode, tun) && GetsUnit(k, mode, tun))
            && (out.TunLeft? <==> Usable(d, mode, tun) && !GetsUnit(k, mode, tun)))
  {
    var out := Whole(sock, sys);
    ClaimableAfterOpen(k, sock, Socket, ModeKind(mode), WantedName(mode, tun));
    if Reason(k, d, mode, tun, out) {
      EndsExactlyWhen(k, d, mode, tun, out);
    }
  }

  // ---- The other calls as steps ----------------------------------------------------

  /** A flag request of the device reaches an interface. */
  ghost predicate Reaches(k: Kernel, d: Dev) {
    k.IsSocket(d.ctrlSock) && k.Find(d.Name()).Some?
  }

  ghost function KernelAfterUp(k: Kernel, d: Dev, up: bool): Kernel
    requires Reaches(k, d)
  {
    SetFlagsOf(k, d.Name(), SetUp(d.flags, up))
  }

  ghost predicate MayRenameDev(k: Kernel, d: Dev, name: seq<byte>) {
    |name| <= IF_NAMESIZE && 0 !in name && k.IsSocket(d.ctrlSock) && MayRename(k, d.Name(), Take(name, 15))
  }

  ghost function KernelAfterRename(k: Kernel, d: Dev, name: seq<byte>): Kernel
    requires MayRenameDev(k, d, name)
  {
    RenameOf(k, d.Name(), Take(name, 15))
  }

  function KernelAfterRelease(k: Kernel, d: Dev): Kernel {
    (if d.tunFd != -1 then k.Close(d.tunFd) else k).Close(d.ctrlSock)
  }

  /** `cleared` says whether the persistence bit could be cleared. */
  ghost predicate MayDestroy(k: Kernel, d: Dev, cleared: bool) {
    cleared ==> exists id :: id in k.ifs && k.Holds(d.tunFd, id)
  }

  function KernelAfterClear(k: Kernel, d: Dev, cleared: bool): Kernel {
    if cleared && d.tunFd in k.files && k.files[d.tunFd].Tun? && k.files[d.tunFd].link.Some?
       && k.files[d.tunFd].link.value in k.ifs
    then k.Persist(k.files[d.tunFd].link.value, false)
    else k
  }

  function KernelAfterDestroy(k: Kernel, d: Dev, cleared: bool): Kernel {
    KernelAfterRelease(KernelAfterClear(k, d, cleared), d)
  }

  // ---- The code ------------------------------------------------------------------

  class Device {
    var tunFd: int
    var ctrlSock: int
    var flags: int
    const hwaddr: array<byte>
    const ifName: array<byte>

    ghost predicate Valid() {
      hwaddr.Length == 6 && ifName.Length == 17 && hwaddr != ifName
    }

    ghost function State(): Dev
      requires Valid()
      reads this, hwaddr, ifName
    {
      Dev(tunFd, ctrlSock, flags, hwaddr[..], ifName[..])
    }

    /** tuntap_init */
    constructor ()
      ensures Valid() && fresh(hwaddr) && fresh(ifName)
      ensures State() == FreshDev == Dev(-1, -1, 0, [0, 0, 0, 0, 0, 0], seq(17, _ => 0))
    {
      hwaddr := new byte[6](_ => 0);
      ifName := new byte[17](_ => 0);
      tunFd, ctrlSock, flags := -1, -1, 0;
    }

    /** Fills in and sends TUNSETIFF. */
    method Configure(host: Host, fd: int, mode: int, tun: int, req: array<byte>) returns (r: int, ghost link: Link)
      requires req.Length == REQUEST && host.k.Wf() && ValidMode(mode) && tun >= 0
      modifies req, host
      ensures host.faults >= old(host.faults)
      ensures r == -1 ==> host.k == old(host.k) && link == NoLink
      ensures r == -1 ==>
        || host.faults > old(host.faults) || !(fd in host.k.files && host.k.files[fd] == Tun(None))
        || !Available(host.k, mode, tun)
      ensures r != -1 ==>
        && r == 0
        && fd in old(host.k).files && old(host.k).files[fd] == Tun(None)
        && old(host.k).MayLink(ModeKind(mode), WantedName(mode, tun), link)
        && host.k == old(host.k).Attach(fd, link)
        && host.k.Find(NameOf(req[..])) == Some(old(host.k).LinkedId(link))
        && Padded(req[..])
    {
      ClearRequest(req);
      TextIs(req[..][..15], []);
      if BareMode(mode) == MODE_ETHERNET {
        PutShort(req, IFF_TAP + IFF_NO_PI);
      } else {
        PutShort(req, IFF_TUN + IFF_NO_PI);
      }
      assert Padded(req[..]);
      if tun != ID_ANY {
        ghost var before := req[..];
        PutName(req, Prefix(BareMode(mode) == MODE_ETHERNET) + Signed(tun));
        PaddedStays(before, req[..], WantedName(mode, tun));
      }
      r, link := host.TunSetIff(fd, req);
    }

    /** Saves what the kernel reports about interface `id`: flags and name, and the
        link-layer address of a tap interface when it can be read. */
    method SaveInterface(host: Host, fd: int, mode: int, req: array<byte>, ghost id: nat)
      returns (r: int, ghost macRead: bool)
      requires Valid() && req.Length == REQUEST && req != ifName && req != hwaddr
      requires host.k.Wf() && host.k.Holds(fd, id) && id in host.k.ifs
      requires host.k.Find(NameOf(req[..])) == Some(id) && Padded(req[..])
      modifies req, this`flags, hwaddr, ifName, host`faults
      ensures host.faults >= old(host.faults)
      ensures r == -1 || r == 0
      ensures r == -1 ==> State() == old(State()) && (host.faults > old(host.faults) || !host.k.IsSocket(ctrlSock))
      ensures macRead ==> BareMode(mode) == MODE_ETHERNET
      ensures r == 0 && BareMode(mode) == MODE_ETHERNET ==> macRead || host.faults > old(host.faults)
      ensures r == 0 ==>
        var i := host.k.ifs[id];
        State() == Dev(tunFd, ctrlSock, i.flags, if macRead then i.mac else old(hwaddr[..]),
                       Pad(i.name, 16) + [old(ifName[16])])
    {
      macRead := false;
      ghost var name := NameOf(req[..]);
      r := host.GetFlags(ctrlSock, req);
      if r == -1 {
        return;
      }
      flags := ShortOf(req[..]);
      for i := 0 to 16
        invariant forall j | 0 <= j < i :: ifName[j] == req[j]
        invariant ifName[16] == old(ifName[16])
        invariant host.faults >= old(host.faults)
        invariant flags == host.k.ifs[id].flags && hwaddr[..] == old(hwaddr[..]) && req[..16] == Pad(name, 16)
      {
        ifName[i] := req[i];
      }
      assert name == host.k.ifs[id].name;
      assert ifName[..] == Pad(name, 16) + [old(ifName[16])];
      if BareMode(mode) == MODE_ETHERNET {
        var read, mac := host.GetMac(fd);
        if read == -1 {
          return;
        }
        macRead := true;
        forall i | 0 <= i < 6 { hwaddr[i] := mac[i]; }
        assert hwaddr[..] == mac && ifName[..] == Pad(name, 16) + [old(ifName[16])];
      }
    }

    /** Gives the open clone descriptor its interface, persistent if asked; before the
        descriptor was opened the kernel was `k`. */
    method Claim(host: Host, fd: int, mode: int, tun: int, req: array<byte>, ghost k: Kernel)
      returns (r: int, ghost link: Link, ghost persisted: bool)
      requires req.Length == REQUEST && ValidMode(mode) && tun >= 0
      requires k.Wf() && k.Unused(fd) && host.k == k.Open(fd, Tun(None))
      modifies req, host
      ensures host.faults >= old(host.faults)
      ensures r == -1 || r == 0
      ensures r == -1 ==> host.faults > old(host.faults) || !Available(k, mode, tun)
      ensures link.NoLink? || k.MayLink(ModeKind(mode), WantedName(mode, tun), link)
      ensures persisted ==> WantsPersist(mode) && link != NoLink
      ensures host.k == Linked(k, fd, link, persisted) && host.k.Wf()
      ensures r == 0 ==>
        && persisted == WantsPersist(mode) && link != NoLink && Padded(req[..])
        && Granted(host.k, fd, NameOf(req[..]), k.LinkedId(link), LinkedInterface(k, link))
    {
      hide Linked, WantedName, ModeKind, Kernel.Claimable;
      persisted := false;
      ClaimableAfterOpen(k, fd, Tun(None), ModeKind(mode), WantedName(mode, tun));
      k.OpenWf(fd, Tun(None));
      ghost var open := host.k;
      r, link := Configure(host, fd, mode, tun, req);
      if r == -1 {
        LinkedNothing(k, fd);
        return;
      }
      LinkAfterOpen(k, fd, ModeKind(mode), WantedName(mode, tun), link, false);
      AttachIsLinked(k, fd, link);
      open.AttachWf(fd, ModeKind(mode), WantedName(mode, tun), link);
      if WantsPersist(mode) {
        r := host.TunSetPersist(fd, true);
        if r == -1 {
          return;
        }
        persisted := true;
        LinkAfterOpen(k, fd, ModeKind(mode), WantedName(mode, tun), link, true);
        PersistFind(open.Attach(fd, link), k.LinkedId(link), true, NameOf(req[..]));
      }
    }

    /** The rest of tuntap_sys_start, once the clone device is open on `fd`; before that
        the kernel was `k`. */
    method StartOn(host: Host, fd: int, mode: int, tun: int, ghost k: Kernel) returns (r: int, ghost out: SysOutcome)
      requires Valid() && host.k.Wf() && ValidMode(mode) && tun >= 0 && (tun != ID_ANY ==> fd <= ID_MAX)
      requires k.Wf() && k.Unused(fd) && host.k == k.Open(fd, Tun(None))
      modifies this`flags, hwaddr, ifName, host
      ensures host.faults >= old(host.faults)
      ensures host.k.Wf()
      ensures SysEnds(k, host.k, old(State()), State(), mode, tun, out)
      ensures !out.NoTun? && out.fd == fd && r == if out.Ready? then fd else -1
      ensures host.faults == old(host.faults) ==> SysReason(k, ctrlSock, mode, tun, out)
    {
      hide SysEnds, Linked, DevAfterStart, Available, WantedName, ModeKind, Kernel.MayLink;
      ghost var d := State();
      var req := new byte[REQUEST];
      ghost var link, persisted, macRead;
      r, link, persisted := Claim(host, fd, mode, tun, req, k);
      MayLinkExists(k, ModeKind(mode), WantedName(mode, tun), link);
      LinkedSockets(k, fd, link, persisted, ctrlSock);
      EndsLeft(k, d, mode, tun, fd, link, persisted);
      out := Left(fd, link, persisted);
      if r == -1 {
        return;
      }
      r, macRead := SaveInterface(host, fd, mode, req, k.LinkedId(link));
      if r == -1 {
        return;
      }
      EndsReady(k, d, State(), mode, tun, fd, link, macRead);
      out := Ready(fd, link, macRead);
      r := fd;
    }

    /** tuntap_sys_start; the control socket is open. */
    method SysStart(host: Host, mode: int, tun: int) returns (fd: int, ghost out: SysOutcome)
      requires Valid() && host.k.Wf()
      modifies this`flags, hwaddr, ifName, host
      ensures host.faults >= old(host.faults)
      ensures host.k.Wf()
      ensures SysEnds(old(host.k), host.k, old(State()), State(), mode, tun, out)
      ensures fd == if out.Ready? then out.fd else -1
      ensures fd != -1 ==> fd >= 0
      ensures !out.NoTun? ==> old(host.k).Lowest(out.fd)
      ensures host.faults == old(host.faults) ==> SysReason(old(host.k), ctrlSock, mode, tun, out)
    {
      ghost var k := host.k;
      out := NoTun;
      if !ValidMode(mode) || tun < 0 {
        return -1, out;
      }
      fd := host.OpenFile(Tun(None));
      if fd == -1 {
        return -1, out;
      }
      k.OpenWf(fd, Tun(None));
      out := Left(fd, NoLink, false);
      if tun != ID_ANY && fd > ID_MAX {
        return -1, out;
      }
      fd, out := StartOn(host, fd, mode, tun, k);
    }

    /** tuntap_start */
    method Start(host: Host, mode: int, tun: int) returns (r: int, ghost out: Outcome)
      requires Valid() && host.k.Wf() && InInt(mode) && InInt(tun)
      modifies this, hwaddr, ifName, host
      ensures host.faults >= old(host.faults)
      ensures host.k.Wf()
      ensures MayStart(old(host.k), old(State()), mode, tun, out)
      ensures host.k == KernelAfterStart(old(host.k), mode, out)
      ensures State() == DevAfterStart(old(host.k), old(State()), out)
      ensures r == if out.Up? then 0 else -1
      ensures Numbered(old(host.k), out)
      ensures host.faults == old(host.faults) ==>
        && Reason(old(host.k), old(State()), mode, tun, out)
        && (r == 0 <==> Usable(old(State()), mode, tun) && GetsUnit(old(host.k), mode, tun))
        && (out.TunLeft? <==> Usable(old(State()), mode, tun) && !GetsUnit(old(host.k), mode, tun))
    {
      hide SysEnds, GetsUnit, SysReason, WantedName;
      ghost var k, d := host.k, State();
      var fd, sock := -1, -1;
      out := Refused;
      if tunFd != -1 {
        return -1, out;
      }
      sock := host.OpenFile(Socket);
      if sock == -1 {
        return -1, out;
      }
      hide MayStart, KernelAfterStart, DevAfterStart, Numbered, Reason;
      ctrlSock := sock;
      ghost var sys := NoTun;
      k.OpenWf(sock, Socket);
      if !(WantsPersist(mode) && tun == ID_ANY) {
        fd, sys := SysStart(host, mode, tun);
      }
      AroundSocket(k, host.k, sock, d, State(), mode, tun, sys);
      out := Whole(sock, sys);
      NumbersOf(k, sock, d, mode, tun, sys);
      if fd != -1 {
        tunFd := fd;
        return 0, out;
      }
      host.k.CloseWf(sock);
      host.Close(sock);
      r := -1;
    }

    /** tuntap_release; the device is gone afterwards. */
    method Release(host: Host)
      requires Valid()
      modifies host
      ensures host.faults >= old(host.faults)
      ensures host.k == KernelAfterRelease(old(host.k), State())
    {
      if tunFd != -1 {
        host.Close(tunFd);
      }
      host.Close(ctrlSock);
    }

    /** tuntap_sys_destroy */
    method SysDestroy(host: Host) returns (ghost cleared: bool)
      requires Valid()
      modifies host
      ensures host.faults >= old(host.faults)
      ensures MayDestroy(old(host.k), State(), cleared)
      ensures !cleared ==> host.faults > old(host.faults) || !old(host.k).HoldsSome(tunFd)
      ensures host.k == KernelAfterClear(old(host.k), State(), cleared)
    {
      var r := host.TunSetPersist(tunFd, false);
      cleared := r != -1;
      assert cleared ==> old(host.k).Holds(tunFd, old(host.k).files[tunFd].link.value);
    }

    /** tuntap_destroy; the device is gone afterwards. */
    method Destroy(host: Host) returns (ghost cleared: bool)
      requires Valid()
      modifies host
      ensures host.faults >= old(host.faults)
      ensures MayDestroy(old(host.k), State(), cleared)
      ensures !cleared ==> host.faults > old(host.faults) || !old(host.k).HoldsSome(tunFd)
      ensures host.k == KernelAfterDestroy(old(host.k), State(), cleared)
    {
      cleared := SysDestroy(host);
      Release(host);
    }

    /** tuntap_up (`up`) and tuntap_down (`!up`), which differ in the bit operation alone */
    method SetUpDown(host: Host, up: bool) returns (r: int)
      requires Valid() && host.k.Wf() && InInt(flags)
      modifies this`flags, host
      ensures host.faults >= old(host.faults)
      ensures host.k.Wf()
      ensures r == -1 || r == 0
      ensures r == -1 ==> host.k == old(host.k) && State() == old(State())
      ensures r == -1 ==> host.faults > old(host.faults) || !Reaches(host.k, State())
      ensures r == 0 ==>
        && Reaches(old(host.k), old(State()))
        && host.k == KernelAfterUp(old(host.k), old(State()), up)
        && State() == old(State()).(flags := SetUp(old(flags), up))
    {
      var req := new byte[REQUEST];
      CopyName(req, ifName);
      PutShort(req, Narrow(flags));
      if up {
        PutShort(req, Raise(ShortOf(req[..])));
      } else {
        PutShort(req, Lower(ShortOf(req[..])));
      }
      ghost var k := host.k;
      r := host.SetFlags(ctrlSock, req);
      if r == -1 {
        return;
      }
      k.UpdateWf(k.Find(State().Name()).value, host.k.ifs[k.Find(State().Name()).value]);
      flags := ShortOf(req[..]);
    }

    method Up(host: Host) returns (r: int)
      requires Valid() && host.k.Wf() && InInt(flags)
      modifies this`flags, host
      ensures host.faults >= old(host.faults)
      ensures host.k.Wf()
      ensures r == -1 || r == 0
      ensures r == -1 ==> host.k == old(host.k) && State() == old(State())
      ensures r == -1 ==> host.faults > old(host.faults) || !Reaches(host.k, State())
      ensures r == 0 ==>
        && Reaches(old(host.k), old(State()))
        && host.k == KernelAfterUp(old(host.k), old(State()), true)
        && State() == old(State()).(flags := SetUp(old(flags), true))
    {
      r := SetUpDown(host, true);
    }

    method Down(host: Host) returns (r: int)
      requires Valid() && host.k.Wf() && InInt(flags)
      modifies this`flags, host
      ensures host.faults >= old(host.faults)
      ensures host.k.Wf()
      ensures r == -1 || r == 0
      ensures r == -1 ==> host.k == old(host.k) && State() == old(State())
      ensures r == -1 ==> host.faults > old(host.faults) || !Reaches(host.k, State())
      ensures r == 0 ==>
        && Reaches(old(host.k), old(State()))
        && host.k == KernelAfterUp(old(host.k), old(State()), false)
        && State() == old(State()).(flags := SetUp(old(flags), false))
    {
      r := SetUpDown(host, false);
    }

    /** tuntap_set_ifname; `None` is a null pointer. */
    method SetIfname(host: Host, ifname: Option<seq<byte>>) returns (r: int)
      requires Valid() && host.k.Wf() && (ifname.Some? ==> 0 !in ifname.value)
      modifies ifName, host
      ensures host.faults >= old(host.faults)
      ensures host.k.Wf()
      ensures r == -1 || r == 0
      ensures r == -1 ==> host.k == old(host.k) && State() == old(State())
      ensures r == -1 ==>
        || host.faults > old(host.faults)
        || ifname.None? || !MayRenameDev(host.k, State(), ifname.value)
      ensures r == 0 ==>
        && ifname.Some? && MayRenameDev(old(host.k), old(State()), ifname.value)
        && host.k == KernelAfterRename(old(host.k), old(State()), ifname.value)
        && State() == DevAfterRename(old(State()), ifname.value)
    {
      if ifname.None? || |ifname.value| > IF_NAMESIZE {
        return -1;
      }
      var name := ifname.value;
      var req := new byte[REQUEST];
      CopyNameText(req, ifName);
      PutNewName(req, name);
      ghost var k := host.k;
      r := host.Rename(ctrlSock, req);
      if r == -1 {
        return;
      }
      k.UpdateWf(k.Find(State().Name()).value, host.k.ifs[k.Find(State().Name()).value]);
      StoreName(ifName, name);
    }

    /** The byte-filling loop of tuntap_set_hwaddr. */
    static method RandomAddress(random: seq<int>) returns (ethRand: array<byte>)
      requires |random| == 6
      ensures fresh(ethRand) && ethRand[..] == RandomMac(random)
    {
      ethRand := new byte[6];
      for i := 0 to 6
        invariant forall j | 0 <= j < i :: ethRand[j] == random[j] % 256
      {
        ethRand[i] := random[i] % 256;
      }
      ethRand[0] := ethRand[0] - ethRand[0] % 4;
    }

    /** tuntap_set_hwaddr. The text is "random", or has been parsed (`None` when it
        does not parse); `random` are the numbers the C library would give. */
    method SetHwaddr(host: Host, isRandom: bool, random: seq<int>, parsed: Option<Mac>) returns (r: int)
      requires Valid() && host.k.Wf() && |random| == 6
      modifies hwaddr, host
      ensures host.faults >= old(host.faults)
      ensures host.k.Wf()
      ensures r == -1 || r == 0
      ensures !isRandom && parsed.None? ==> r == -1 && State() == old(State())
      ensures isRandom || parsed.Some? ==>
        State() == old(State()).(hwaddr := if isRandom then RandomMac(random) else parsed.value)
      ensures r == -1 ==> host.k == old(host.k)
      ensures r == -1 ==>
        || host.faults > old(host.faults) || (!isRandom && parsed.None?)
        || !Reaches(host.k, State())
      ensures r == 0 ==>
        && Reaches(old(host.k), old(State()))
        && host.k == SetMacOf(old(host.k), old(State()).Name(), State().hwaddr)
    {
      var ethAddr;
      if isRandom {
        ethAddr := RandomAddress(random);
      } else {
        if parsed.None? {
          return -1;
        }
        ethAddr := new byte[6](i requires 0 <= i < 6 => parsed.value[i]);
        assert ethAddr[..] == parsed.value;
      }
      forall i | 0 <= i < 6 { hwaddr[i] := ethAddr[i]; }
      assert hwaddr[..] == ethAddr[..];
      r := SysSetHwaddr(host, ethAddr[..]);
    }

    /** tuntap_sys_set_hwaddr */
    method SysSetHwaddr(host: Host, mac: Mac) returns (r: int)
      requires Valid() && host.k.Wf()
      modifies host
      ensures host.faults >= old(host.faults)
      ensures host.k.Wf()
      ensures r == -1 || r == 0
      ensures r == -1 ==> host.k == old(host.k) && (host.faults > old(host.faults) || !Reaches(host.k, State()))
      ensures r == 0 ==>
        Reaches(old(host.k), State()) && host.k == SetMacOf(old(host.k), State().Name(), mac)
    {
      var req := new byte[REQUEST];
      CopyName(req, ifName);
      PutMac(req, ARPHRD_ETHER, mac);
      ghost var k := host.k;
      r := host.SetMac(ctrlSock, req);
      if r == 0 {
        k.UpdateWf(k.Find(State().Name()).value, host.k.ifs[k.Find(State().Name()).value]);
      }
    }
  }
}
