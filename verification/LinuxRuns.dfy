/** Whole runs of one process on Linux: any number of devices, their calls
    interleaved in any order, every system call free to fail. */
module LinuxRuns {
  import opened Common
  import opened IfRequest
  import opened DeviceState
  import opened LinuxKernel
  import opened LinuxDevice

  /** `leaked` collects the descriptors that failed starts left open; the program
      has no such variable. */
  datatype Sys = Sys(k: Kernel, devs: map<nat, Dev>, leaked: set<int>)

  /** One call. Those on a device say how they ended; AppOpen and AppClose are the
      application's own descriptors. */
  datatype Event =
    | Init(dv: nat)
    | Start(dv: nat, mode: int, tun: int, out: Outcome)
    | Release(dv: nat)
    | Destroy(dv: nat, cleared: bool)
    | UpDown(dv: nat, up: bool, ok: bool)
    | Rename(dv: nat, name: seq<byte>, ok: bool)
    | SetMac(dv: nat, mac: Mac, ok: bool)
    | AppOpen(fd: int)
    | AppClose(fd: int)
  {
    predicate OnDevice() {
      !AppOpen? && !AppClose?
    }
  }

  ghost predicate Enabled(s: Sys, e: Event) {
    if e.Init? then e.dv !in s.devs
    else if e.AppOpen? then s.k.Unused(e.fd)
    else if e.AppClose? then e.fd in s.k.files && s.k.files[e.fd].Foreign?
    else
      && e.dv in s.devs
      && match e
         case Start(dv, mode, tun, out) => MayStart(s.k, s.devs[dv], mode, tun, out)
         case Release(dv) => true
         case Destroy(dv, cleared) => MayDestroy(s.k, s.devs[dv], cleared)
         case UpDown(dv, up, ok) => ok ==> Reaches(s.k, s.devs[dv])
         case Rename(dv, name, ok) => ok ==> MayRenameDev(s.k, s.devs[dv], name)
         case SetMac(dv, mac, ok) => ok ==> Reaches(s.k, s.devs[dv])
         case _ => false
  }

  ghost function Apply(s: Sys, e: Event): Sys
    requires Enabled(s, e)
  {
    match e
    case Init(dv) => s.(devs := s.devs[dv := FreshDev])
    case Start(dv, mode, tun, out) =>
      Sys(KernelAfterStart(s.k, mode, out), s.devs[dv := DevAfterStart(s.k, s.devs[dv], out)],
          if out.TunLeft? then s.leaked + {out.fd} else s.leaked)
    case Release(dv) => s.(k := KernelAfterRelease(s.k, s.devs[dv]), devs := s.devs - {dv})
    case Destroy(dv, cleared) => s.(k := KernelAfterDestroy(s.k, s.devs[dv], cleared), devs := s.devs - {dv})
    case UpDown(dv, up, ok) =>
      if !ok then s else
        s.(k := KernelAfterUp(s.k, s.devs[dv], up),
           devs := s.devs[dv := s.devs[dv].(flags := SetUp(s.devs[dv].flags, up))])
    case Rename(dv, name, ok) =>
      if !ok then s else
        s.(k := KernelAfterRename(s.k, s.devs[dv], name), devs := s.devs[dv := DevAfterRename(s.devs[dv], name)])
    case SetMac(dv, mac, ok) =>
      s.(k := if ok then SetMacOf(s.k, s.devs[dv].Name(), mac) else s.k,
         devs := s.devs[dv := s.devs[dv].(hwaddr := mac)])
    case AppOpen(fd) => s.(k := s.k.Open(fd, Foreign))
    case AppClose(fd) => s.(k := s.k.Close(fd))
  }

  ghost predicate Run(s: Sys, es: seq<Event>)
    decreases |es|
  {
    es == [] || (Enabled(s, es[0]) && Run(Apply(s, es[0]), es[1..]))
  }

  ghost function Final(s: Sys, es: seq<Event>): Sys
    requires Run(s, es)
    decreases |es|
  {
    if es == [] then s else Final(Apply(s, es[0]), es[1..])
  }

  /** The process before it uses the library: only descriptors of its own. */
  ghost predicate Initial(s: Sys) {
    && s.k.Wf() && s.devs == map[] && s.leaked == {}
    && forall fd | fd in s.k.files :: s.k.files[fd].Foreign?
  }

  // ---- What every step keeps -------------------------------------------------------

  /** The interface of a started device. */
  function InterfaceId(k: Kernel, d: Dev): nat
    requires d.tunFd in k.files && k.files[d.tunFd].Tun? && k.files[d.tunFd].link.Some?
  {
    k.files[d.tunFd].link.value
  }

  ghost predicate Attached(k: Kernel, d: Dev) {
    && d.tunFd in k.files && k.files[d.tunFd].Tun? && k.files[d.tunFd].link.Some?
    && InterfaceId(k, d) in k.ifs
    && k.IsSocket(d.ctrlSock)
  }

  /** The device owns a tun descriptor and a socket, and what it remembers of the
      interface is what the kernel knows. */
  ghost predicate DevOk(k: Kernel, d: Dev) {
    && d.ifName[16] == 0
    && if d.Started() then
         && Attached(k, d)
         && k.ifs[InterfaceId(k, d)].name == d.Name()
         && k.ifs[InterfaceId(k, d)].flags == d.flags
       else d.ifName == Zeros(17) && d.flags == 0
  }

  /** The two hold no descriptor in common. */
  predicate Apart(d: Dev, other: Dev) {
    d.Started() && other.Started() ==> d.tunFd != other.tunFd && d.ctrlSock != other.ctrlSock
  }

  ghost predicate Core(k: Kernel, devs: map<nat, Dev>) {
    && k.Wf()
    && (forall dv | dv in devs :: DevOk(k, devs[dv]))
    && (forall dv, other | dv in devs && other in devs && dv != other :: Apart(devs[dv], devs[other]))
  }

  function Owned(devs: map<nat, Dev>): set<int> {
    (set dv | dv in devs && devs[dv].Started() :: devs[dv].tunFd) +
    (set dv | dv in devs && devs[dv].Started() :: devs[dv].ctrlSock)
  }

  function NotForeign(k: Kernel): set<int> {
    set fd | fd in k.files && !k.files[fd].Foreign?
  }

  /** Every open descriptor is the application's, or a started device's, or leaked. */
  ghost predicate Ledger(s: Sys) {
    && NotForeign(s.k) == Owned(s.devs) + s.leaked
    && s.leaked !! Owned(s.devs)
  }

  ghost predicate Inv(s: Sys) {
    Core(s.k, s.devs) && Ledger(s)
  }

  /** A device that is not started is not disposed of while the number of the socket
      it lost is in use again. */
  ghost predicate Orderly(s: Sys, e: Event) {
    e.Release? || e.Destroy? ==>
      e.dv in s.devs && (s.devs[e.dv].Started() || s.devs[e.dv].ctrlSock !in s.k.files)
  }

  ghost predicate OrderlyRun(s: Sys, es: seq<Event>)
    requires Run(s, es)
    decreases |es|
  {
    es == [] || (Orderly(s, es[0]) && OrderlyRun(Apply(s, es[0]), es[1..]))
  }

  // ---- One device moves, the others stay -------------------------------------------

  /** The kernel change from `k` to `k'` is invisible to a device. */
  ghost predicate Unseen(k: Kernel, k': Kernel, d: Dev) {
    d.Started() && Attached(k, d) ==>
      && Attached(k', d) && k'.files[d.tunFd] == k.files[d.tunFd]
      && k'.ifs[InterfaceId(k, d)] == k.ifs[InterfaceId(k, d)]
  }

  lemma OneMoves(k: Kernel, k': Kernel, devs: map<nat, Dev>, dv: nat, d': Dev)
    requires Core(k, devs) && k'.Wf() && DevOk(k', d')
    requires forall other | other in devs && other != dv :: Unseen(k, k', devs[other]) && Apart(d', devs[other])
    ensures Core(k', devs[dv := d'])
  {
    var devs' := devs[dv := d'];
    forall other | other in devs'
      ensures DevOk(k', devs'[other])
    {
      assert other != dv ==> DevOk(k, devs[other]);
    }
  }

  lemma AllStay(k: Kernel, k': Kernel, devs: map<nat, Dev>)
    requires Core(k, devs) && k'.Wf()
    requires forall dv | dv in devs :: Unseen(k, k', devs[dv])
    ensures Core(k', devs)
  {
    forall dv | dv in devs
      ensures DevOk(k', devs[dv])
    {
      assert DevOk(k, devs[dv]);
    }
  }

  lemma OneLeaves(k: Kernel, k': Kernel, devs: map<nat, Dev>, dv: nat)
    requires Core(k, devs) && k'.Wf()
    requires forall other | other in devs && other != dv :: Unseen(k, k', devs[other])
    ensures Core(k', devs - {dv})
  {
    forall other | other in devs - {dv}
      ensures DevOk(k', devs[other])
    {
      assert DevOk(k, devs[other]);
    }
  }

  /** A device that is not started has no name, so its requests reach nothing. */
  lemma RequestsReachOwn(k: Kernel, d: Dev)
    requires k.Wf() && DevOk(k, d)
    ensures !d.Started() ==> k.Find(d.Name()).None?
    ensures d.Started() ==> k.Find(d.Name()) == Some(InterfaceId(k, d))
  {
    if d.Started() {
      k.FindIs(InterfaceId(k, d));
    } else {
      TextIs(d.ifName[..15], []);
    }
  }

  lemma OtherInterface(k: Kernel, d: Dev, other: Dev)
    requires k.Wf() && DevOk(k, d) && DevOk(k, other) && Apart(d, other) && d.Started() && other.Started()
    ensures InterfaceId(k, d) != InterfaceId(k, other)
  {
  }

  /** A change to a device's own interface. */
  lemma UpdateOwn(k: Kernel, devs: map<nat, Dev>, dv: nat, iface: Interface, d': Dev)
    requires Core(k, devs) && dv in devs && devs[dv].Started()
    requires d'.Started() && d'.tunFd == devs[dv].tunFd && d'.ctrlSock == devs[dv].ctrlSock
    requires iface.name == devs[dv].Name() || k.Find(iface.name).None?
    requires d'.ifName[16] == 0 && d'.Name() == iface.name && d'.flags == iface.flags
    ensures Core(k.Update(InterfaceId(k, devs[dv]), iface), devs[dv := d'])
  {
    var d := devs[dv];
    var id := InterfaceId(k, d);
    var k' := k.Update(id, iface);
    k.UpdateWf(id, iface);
    forall other | other in devs && other != dv
      ensures Unseen(k, k', devs[other]) && Apart(d', devs[other])
    {
      assert DevOk(k, devs[other]) && Apart(d, devs[other]);
      if devs[other].Started() {
        OtherInterface(k, d, devs[other]);
      }
    }
    OneMoves(k, k', devs, dv, d');
  }

  // ---- Every step keeps the core invariant -------------------------------------------

  lemma UpDownKeepsCore(s: Sys, e: Event)
    requires Core(s.k, s.devs) && Enabled(s, e) && e.UpDown?
    ensures Core(Apply(s, e).k, Apply(s, e).devs)
  {
    var d := s.devs[e.dv];
    RequestsReachOwn(s.k, d);
    if e.ok {
      var flags := SetUp(d.flags, e.up);
      UpdateOwn(s.k, s.devs, e.dv, s.k.ifs[InterfaceId(s.k, d)].(flags := flags), d.(flags := flags));
    }
  }

  lemma RenameKeepsCore(s: Sys, e: Event)
    requires Core(s.k, s.devs) && Enabled(s, e) && e.Rename?
    ensures Core(Apply(s, e).k, Apply(s, e).devs)
  {
    var d := s.devs[e.dv];
    RequestsReachOwn(s.k, d);
    if e.ok {
      NameAfterRename(d, e.name);
      UpdateOwn(s.k, s.devs, e.dv, s.k.ifs[InterfaceId(s.k, d)].(name := Take(e.name, 15)), DevAfterRename(d, e.name));
    }
  }

  lemma SetMacKeepsCore(s: Sys, e: Event)
    requires Core(s.k, s.devs) && Enabled(s, e) && e.SetMac?
    ensures Core(Apply(s, e).k, Apply(s, e).devs)
  {
    var d := s.devs[e.dv];
    RequestsReachOwn(s.k, d);
    if e.ok {
      UpdateOwn(s.k, s.devs, e.dv, s.k.ifs[InterfaceId(s.k, d)].(mac := e.mac), d.(hwaddr := e.mac));
    } else {
      OneMoves(s.k, s.k, s.devs, e.dv, d.(hwaddr := e.mac));
    }
  }

  lemma LinkUnseen(k: Kernel, fd: int, kind: Kind, name: seq<byte>, link: Link, persist: bool, other: Dev)
    requires k.Wf() && k.Unused(fd) && (link.NoLink? || k.MayLink(kind, name, link))
    ensures Unseen(k, Linked(k, fd, link, persist), other)
  {
    if other.Started() && Attached(k, other) {
      assert k.Holds(other.tunFd, InterfaceId(k, other));
    }
  }

  lemma OpenUnseen(k: Kernel, fd: int, file: File, other: Dev)
    requires k.Unused(fd)
    ensures Unseen(k, k.Open(fd, file), other)
  {
  }

  lemma UnseenTwice(k: Kernel, k': Kernel, k'': Kernel, other: Dev)
    requires Unseen(k, k', other) && Unseen(k', k'', other)
    ensures Unseen(k, k'', other)
  {
  }

  lemma StartedIsWf(k: Kernel, d: Dev, mode: int, tun: int, out: Outcome)
    requires k.Wf() && out.Up? && MayStart(k, d, mode, tun, out)
    ensures KernelAfterStart(k, mode, out).Wf()
  {
    var linked := Linked(k, out.fd, out.link, WantsPersist(mode));
    LinkedWf(k, out.fd, ModeKind(mode), WantedName(mode, tun), out.link, WantsPersist(mode));
    linked.OpenWf(out.sock, Socket);
  }

  /** What a successful start leaves: the device remembers what the kernel knows. */
  lemma StartedIsOk(k: Kernel, d: Dev, mode: int, tun: int, out: Outcome)
    requires k.Wf() && DevOk(k, d) && out.Up? && MayStart(k, d, mode, tun, out)
    ensures DevOk(KernelAfterStart(k, mode, out), DevAfterStart(k, d, out))
  {
    var d', i := DevAfterStart(k, d, out), LinkedInterface(k, out.link);
    TextOfPad(i.name, 16, 15);
    assert d'.ifName[..15] == Pad(i.name, 16)[..15];
  }

  lemma StartKeepsCore(s: Sys, e: Event)
    requires Core(s.k, s.devs) && Enabled(s, e) && e.Start?
    ensures Core(Apply(s, e).k, Apply(s, e).devs)
  {
    var k, d, out := s.k, s.devs[e.dv], e.out;
    var k', d' := KernelAfterStart(k, e.mode, out), DevAfterStart(k, d, out);
    if out.Up? {
      StartedIsWf(k, d, e.mode, e.tun, out);
      StartedIsOk(k, d, e.mode, e.tun, out);
    } else if out.TunLeft? {
      LinkedWf(k, out.fd, ModeKind(e.mode), WantedName(e.mode, e.tun), out.link, out.persisted);
    }
    forall other | other in s.devs && other != e.dv
      ensures Unseen(k, k', s.devs[other]) && Apart(d', s.devs[other])
    {
      assert DevOk(k, s.devs[other]) && Apart(d, s.devs[other]);
      StartUnseen(k, d, e.mode, e.tun, out, s.devs[other]);
    }
    OneMoves(k, k', s.devs, e.dv, d');
  }

  lemma StartUnseen(k: Kernel, d: Dev, mode: int, tun: int, out: Outcome, other: Dev)
    requires k.Wf() && MayStart(k, d, mode, tun, out) && DevOk(k, other)
    ensures Unseen(k, KernelAfterStart(k, mode, out), other)
    ensures Apart(d, other) ==> Apart(DevAfterStart(k, d, out), other)
  {
    if out.Up? {
      var linked := Linked(k, out.fd, out.link, WantsPersist(mode));
      LinkUnseen(k, out.fd, ModeKind(mode), WantedName(mode, tun), out.link, WantsPersist(mode), other);
      OpenUnseen(linked, out.sock, Socket, other);
      UnseenTwice(k, linked, linked.Open(out.sock, Socket), other);
    } else if out.TunLeft? {
      LinkUnseen(k, out.fd, ModeKind(mode), WantedName(mode, tun), out.link, out.persisted, other);
    }
  }

  lemma AppUnseen(s: Sys, e: Event, d: Dev)
    requires s.k.Wf() && DevOk(s.k, d) && Enabled(s, e) && !e.OnDevice()
    ensures Unseen(s.k, Apply(s, e).k, d)
  {
  }

  lemma AppKeepsCore(s: Sys, e: Event)
    requires Core(s.k, s.devs) && Enabled(s, e) && !e.OnDevice()
    ensures Core(Apply(s, e).k, Apply(s, e).devs)
  {
    hide DevOk;
    var k' := Apply(s, e).k;
    if e.AppOpen? {
      s.k.OpenWf(e.fd, Foreign);
    } else {
      s.k.CloseWf(e.fd);
    }
    forall dv | dv in s.devs
      ensures Unseen(s.k, k', s.devs[dv])
    {
      AppUnseen(s, e, s.devs[dv]);
    }
    AllStay(s.k, k', s.devs);
  }

  /** Closing a descriptor is invisible to a device that does not own it. */
  lemma CloseUnseen(k: Kernel, fd: int, other: Dev)
    requires k.Wf()
    requires other.Started() ==> fd != other.tunFd && fd != other.ctrlSock
    ensures Unseen(k, k.Close(fd), other)
  {
  }

  lemma ClearWf(k: Kernel, d: Dev, cleared: bool)
    requires k.Wf()
    ensures KernelAfterClear(k, d, cleared).Wf() && KernelAfterClear(k, d, cleared).files == k.files
  {
    if cleared && d.tunFd in k.files && k.files[d.tunFd].Tun? && k.files[d.tunFd].link.Some? {
      k.UpdateWf(InterfaceId(k, d), k.ifs[InterfaceId(k, d)].(persist := false));
    }
  }

  lemma ClearUnseen(k: Kernel, d: Dev, cleared: bool, other: Dev)
    requires k.Wf() && (other.Started() ==> d.tunFd != other.tunFd)
    ensures Unseen(k, KernelAfterClear(k, d, cleared), other)
  {
  }

  lemma ReleaseUnseen(k: Kernel, d: Dev, other: Dev)
    requires k.Wf() && (d.Started() || d.ctrlSock !in k.files)
    requires other.Started() ==> d.Started() ==> d.tunFd != other.tunFd && d.ctrlSock != other.ctrlSock
    requires other.Started() && d.Started() ==> d.tunFd != other.ctrlSock && d.ctrlSock != other.tunFd
    ensures Unseen(k, KernelAfterRelease(k, d), other) && KernelAfterRelease(k, d).Wf()
  {
    if d.Started() {
      var k' := k.Close(d.tunFd);
      k.CloseWf(d.tunFd);
      k'.CloseWf(d.ctrlSock);
      CloseUnseen(k, d.tunFd, other);
      CloseUnseen(k', d.ctrlSock, other);
      UnseenTwice(k, k', k'.Close(d.ctrlSock), other);
    }
  }

  lemma DisposalKeepsCore(s: Sys, e: Event)
    requires Core(s.k, s.devs) && Enabled(s, e) && (e.Release? || e.Destroy?) && Orderly(s, e)
    ensures Core(Apply(s, e).k, Apply(s, e).devs)
  {
    var d := s.devs[e.dv];
    var cleared := e.Destroy? && e.cleared;
    var k0 := KernelAfterClear(s.k, d, cleared);
    var k' := KernelAfterRelease(k0, d);
    assert DevOk(s.k, d);
    ClearWf(s.k, d, cleared);
    forall other | other in s.devs && other != e.dv
      ensures Unseen(s.k, k', s.devs[other])
    {
      assert DevOk(s.k, s.devs[other]) && DevOk(s.k, d) && Apart(d, s.devs[other]);
      ClearUnseen(s.k, d, cleared, s.devs[other]);
      ReleaseUnseen(k0, d, s.devs[other]);
      UnseenTwice(s.k, k0, k', s.devs[other]);
    }
    ReleaseUnseen(k0, d, FreshDev);
    OneLeaves(s.k, k', s.devs, e.dv);
  }

  // ---- Descriptors are accounted for --------------------------------------------------

  function OwnedBy(d: Dev): set<int> {
    if d.Started() then {d.tunFd, d.ctrlSock} else {}
  }

  function ForeignFds(k: Kernel): set<int> {
    set fd | fd in k.files && k.files[fd].Foreign?
  }

  lemma OwnedSplit(devs: map<nat, Dev>, dv: nat)
    requires dv in devs
    ensures Owned(devs) == Owned(devs - {dv}) + OwnedBy(devs[dv])
  {
    var rest := devs - {dv};
    forall fd | fd in Owned(devs)
      ensures fd in Owned(rest) + OwnedBy(devs[dv])
    {
      var other :| other in devs && devs[other].Started() && (fd == devs[other].tunFd || fd == devs[other].ctrlSock);
      if other != dv {
        assert other in rest;
      }
    }
    forall fd | fd in Owned(rest) + OwnedBy(devs[dv])
      ensures fd in Owned(devs)
    {
      if fd in Owned(rest) {
        var other :| other in rest && rest[other].Started() && (fd == rest[other].tunFd || fd == rest[other].ctrlSock);
        assert other in devs;
      }
    }
  }

  lemma OwnedApart(k: Kernel, devs: map<nat, Dev>, dv: nat)
    requires Core(k, devs) && dv in devs
    ensures Owned(devs - {dv}) !! OwnedBy(devs[dv])
  {
    hide DevOk, Kernel.Wf;
    forall fd | fd in Owned(devs - {dv})
      ensures fd !in OwnedBy(devs[dv])
    {
      var other :| other in devs && other != dv && devs[other].Started()
                   && (fd == devs[other].tunFd || fd == devs[other].ctrlSock);
      OwnFilesApart(k, devs[dv], devs[other]);
    }
  }

  lemma OwnFilesApart(k: Kernel, d: Dev, other: Dev)
    requires DevOk(k, d) && DevOk(k, other) && Apart(d, other)
    ensures OwnedBy(d) !! OwnedBy(other)
  {
  }

  lemma OwnedAfter(devs: map<nat, Dev>, dv: nat, d': Dev)
    ensures Owned(devs[dv := d']) == Owned(devs - {dv}) + OwnedBy(d')
  {
    OwnedSplit(devs[dv := d'], dv);
    assert devs[dv := d'] - {dv} == devs - {dv};
  }

  /** A step that leaves the descriptors alone. */
  lemma SameFilesKeepLedger(s: Sys, k': Kernel, dv: nat, d': Dev)
    requires Ledger(s) && k'.files == s.k.files && (dv in s.devs || OwnedBy(d') == {})
    requires dv in s.devs ==> OwnedBy(d') == OwnedBy(s.devs[dv])
    ensures Ledger(s.(k := k', devs := s.devs[dv := d']))
    ensures ForeignFds(k') == ForeignFds(s.k)
  {
    OwnedAfter(s.devs, dv, d');
    if dv in s.devs {
      OwnedSplit(s.devs, dv);
    } else {
      assert s.devs - {dv} == s.devs;
    }
    assert NotForeign(k') == NotForeign(s.k);
  }

  /** The one way the set of leaked descriptors grows. */
  predicate Leaks(e: Event) {
    e.Start? && e.out.TunLeft?
  }

  /** The descriptors a start adds to the table. */
  function Added(out: Outcome): set<int> {
    match out
    case Refused => {}
    case SockOnly(sock) => {}
    case TunLeft(sock, fd, link, persisted) => {fd}
    case Up(sock, fd, link, macRead) => {fd, sock}
  }

  lemma StartFiles(k: Kernel, d: Dev, mode: int, tun: int, out: Outcome)
    requires MayStart(k, d, mode, tun, out)
    ensures var k' := KernelAfterStart(k, mode, out);
      && Added(out) !! k.files.Keys
      && k'.files.Keys == k.files.Keys + Added(out)
      && (forall fd | fd in k.files :: k'.files[fd] == k.files[fd])
      && (forall fd | fd in Added(out) :: !k'.files[fd].Foreign?)
  {
  }

  lemma MoreFiles(k: Kernel, k': Kernel, added: set<int>)
    requires added !! k.files.Keys && k'.files.Keys == k.files.Keys + added
    requires forall fd | fd in k.files :: k'.files[fd] == k.files[fd]
    requires forall fd | fd in added :: !k'.files[fd].Foreign?
    ensures NotForeign(k') == NotForeign(k) + added && ForeignFds(k') == ForeignFds(k)
    ensures NotForeign(k) !! added
  {
    forall fd | fd in k'.files
      ensures k'.files[fd].Foreign? <==> fd in k.files && k.files[fd].Foreign?
    {
      assert fd in k.files || fd in added;
    }
    assert forall fd | fd in k.files :: fd in k'.files;
  }

  lemma StartKeepsLedger(s: Sys, e: Event)
    requires Ledger(s) && Enabled(s, e) && e.Start?
    ensures Ledger(Apply(s, e)) && ForeignFds(Apply(s, e).k) == ForeignFds(s.k)
    ensures Leaks(e) ==> e.out.fd !in s.leaked
  {
    var d, d', k' := s.devs[e.dv], DevAfterStart(s.k, s.devs[e.dv], e.out), KernelAfterStart(s.k, e.mode, e.out);
    StartFiles(s.k, d, e.mode, e.tun, e.out);
    MoreFiles(s.k, k', Added(e.out));
    OwnedAfter(s.devs, e.dv, d');
    OwnedSplit(s.devs, e.dv);
    assert OwnedBy(d') == if e.out.Up? then Added(e.out) else OwnedBy(d);
  }

  lemma AppKeepsLedger(s: Sys, e: Event)
    requires Inv(s) && Enabled(s, e) && !e.OnDevice()
    ensures Ledger(Apply(s, e))
  {
    assert NotForeign(Apply(s, e).k) == NotForeign(s.k);
  }

  /** Disposal closes the descriptors of the device, and no others. */
  lemma DisposalFiles(k: Kernel, d: Dev, cleared: bool)
    requires k.Wf() && DevOk(k, d) && (d.Started() || d.ctrlSock !in k.files)
    ensures KernelAfterDestroy(k, d, cleared).files == k.files - OwnedBy(d)
  {
  }

  lemma LedgerWithout(s: Sys, k': Kernel, dv: nat)
    requires Ledger(s) && dv in s.devs && k'.files == s.k.files - OwnedBy(s.devs[dv])
    requires Owned(s.devs - {dv}) !! OwnedBy(s.devs[dv])
    ensures Ledger(s.(k := k', devs := s.devs - {dv})) && ForeignFds(k') == ForeignFds(s.k)
  {
    OwnedSplit(s.devs, dv);
    assert NotForeign(k') == NotForeign(s.k) - OwnedBy(s.devs[dv]);
  }

  lemma DisposalKeepsLedger(s: Sys, e: Event)
    requires Inv(s) && Enabled(s, e) && (e.Release? || e.Destroy?) && Orderly(s, e)
    ensures Ledger(Apply(s, e)) && ForeignFds(Apply(s, e).k) == ForeignFds(s.k)
  {
    var d, k' := s.devs[e.dv], Apply(s, e).k;
    assert DevOk(s.k, d);
    DisposalFiles(s.k, d, e.Destroy? && e.cleared);
    OwnedApart(s.k, s.devs, e.dv);
    LedgerWithout(s, k', e.dv);
  }

  // ---- All runs -------------------------------------------------------------------------

  lemma RequestKeepsInv(s: Sys, e: Event)
    requires Inv(s) && Enabled(s, e) && (e.UpDown? || e.Rename? || e.SetMac?)
    ensures Inv(Apply(s, e)) && ForeignFds(Apply(s, e).k) == ForeignFds(s.k)
  {
    match e {
      case UpDown(_, _, _) => UpDownKeepsCore(s, e);
      case Rename(_, _, _) => RenameKeepsCore(s, e);
      case SetMac(_, _, _) => SetMacKeepsCore(s, e);
    }
    RequestKeepsLedger(s, e);
  }

  lemma RequestKeepsLedger(s: Sys, e: Event)
    requires Ledger(s) && Enabled(s, e) && (e.UpDown? || e.Rename? || e.SetMac?)
    ensures Ledger(Apply(s, e)) && ForeignFds(Apply(s, e).k) == ForeignFds(s.k)
  {
    if e.SetMac? || e.ok {
      SameFilesKeepLedger(s, Apply(s, e).k, e.dv, Apply(s, e).devs[e.dv]);
    }
  }

  lemma InitKeepsInv(s: Sys, e: Event)
    requires Inv(s) && Enabled(s, e) && e.Init?
    ensures Inv(Apply(s, e)) && ForeignFds(Apply(s, e).k) == ForeignFds(s.k)
  {
    OneMoves(s.k, s.k, s.devs, e.dv, FreshDev);
    SameFilesKeepLedger(s, s.k, e.dv, FreshDev);
  }

  lemma DisposalKeepsInv(s: Sys, e: Event)
    requires Inv(s) && Enabled(s, e) && (e.Release? || e.Destroy?) && Orderly(s, e)
    ensures Inv(Apply(s, e)) && ForeignFds(Apply(s, e).k) == ForeignFds(s.k)
  {
    DisposalKeepsCore(s, e);
    DisposalKeepsLedger(s, e);
  }

  lemma StartKeepsInv(s: Sys, e: Event)
    requires Inv(s) && Enabled(s, e) && e.Start?
    ensures Inv(Apply(s, e)) && ForeignFds(Apply(s, e).k) == ForeignFds(s.k)
    ensures Leaks(e) ==> e.out.fd !in s.leaked
  {
    StartKeepsCore(s, e);
    StartKeepsLedger(s, e);
  }

  lemma AppKeepsInv(s: Sys, e: Event)
    requires Inv(s) && Enabled(s, e) && !e.OnDevice()
    ensures Inv(Apply(s, e))
  {
    AppKeepsCore(s, e);
    AppKeepsLedger(s, e);
  }

  lemma LeakedAfter(s: Sys, e: Event)
    requires Enabled(s, e)
    ensures Apply(s, e).leaked == if Leaks(e) then s.leaked + {e.out.fd} else s.leaked
  {
  }

  lemma StepKeepsInv(s: Sys, e: Event)
    requires Inv(s) && Enabled(s, e) && Orderly(s, e)
    ensures Inv(Apply(s, e))
    ensures e.OnDevice() ==> ForeignFds(Apply(s, e).k) == ForeignFds(s.k)
    ensures Apply(s, e).leaked == if Leaks(e) then s.leaked + {e.out.fd} else s.leaked
    ensures Leaks(e) ==> e.out.fd !in s.leaked
  {
    hide Inv, Enabled, Apply, Orderly, ForeignFds;
    LeakedAfter(s, e);
    match e
    case Init(_) => InitKeepsInv(s, e);
    case Start(_, _, _, _) => StartKeepsInv(s, e);
    case Release(_) => DisposalKeepsInv(s, e);
    case Destroy(_, _) => DisposalKeepsInv(s, e);
    case UpDown(_, _, _) => RequestKeepsInv(s, e);
    case Rename(_, _, _) => RequestKeepsInv(s, e);
    case SetMac(_, _, _) => RequestKeepsInv(s, e);
    case AppOpen(_) => AppKeepsInv(s, e);
    case AppClose(_) => AppKeepsInv(s, e);
  }
}
