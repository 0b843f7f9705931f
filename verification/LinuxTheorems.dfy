/** What holds of every run of the library on Linux. */
module LinuxTheorems {
  import opened Common
  import opened IfRequest
  import opened DeviceState
  import opened DriverNames
  import opened LinuxKernel
  import opened LinuxDevice
  import opened LinuxRuns

  // ---- Descriptors -----------------------------------------------------------------

  function LeakCount(es: seq<Event>): nat {
    if es == [] then 0 else (if Leaks(es[0]) then 1 else 0) + LeakCount(es[1..])
  }

  /** What the application makes of its own descriptors. */
  function AppFds(fds: set<int>, es: seq<Event>): set<int>
    decreases |es|
  {
    if es == [] then fds
    else
      AppFds(match es[0]
             case AppOpen(fd) => fds + {fd}
             case AppClose(fd) => fds - {fd}
             case _ => fds, es[1..])
  }

  lemma {:induction false} RunKeepsInv(s: Sys, es: seq<Event>)
    requires Inv(s) && Run(s, es) && OrderlyRun(s, es)
    ensures Inv(Final(s, es))
    ensures s.leaked <= Final(s, es).leaked && |Final(s, es).leaked| == |s.leaked| + LeakCount(es)
    ensures ForeignFds(Final(s, es).k) == AppFds(ForeignFds(s.k), es)
    decreases |es|
  {
    if es != [] {
      StepKeepsInv(s, es[0]);
      if !es[0].OnDevice() {
        AppMovesOwn(s, es[0]);
      }
      hide Inv, Enabled, Apply, Orderly;
      RunKeepsInv(Apply(s, es[0]), es[1..]);
    }
  }

  lemma AppMovesOwn(s: Sys, e: Event)
    requires Enabled(s, e) && !e.OnDevice()
    ensures ForeignFds(Apply(s, e).k) ==
      if e.AppOpen? then ForeignFds(s.k) + {e.fd} else ForeignFds(s.k) - {e.fd}
  {
  }

  lemma InitialIsInv(s: Sys)
    requires Initial(s)
    ensures Inv(s) && ForeignFds(s.k) == s.k.files.Keys
  {
    forall fd | fd in s.k.files
      ensures fd in ForeignFds(s.k) && fd !in NotForeign(s.k)
    {
      assert s.k.files[fd].Foreign?;
    }
    TableParts(s.k);
  }

  /** The device has an open tun descriptor and an open socket. */
  ghost predicate HasDescriptors(k: Kernel, d: Dev) {
    d.tunFd in k.files && k.files[d.tunFd].Tun? && d.ctrlSock in k.files && k.files[d.ctrlSock] == Socket
  }

  lemma TwoDevicesApart(k: Kernel, d: Dev, other: Dev)
    requires DevOk(k, d) && DevOk(k, other) && Apart(d, other)
    ensures OwnedBy(d) !! OwnedBy(other)
    ensures d.Started() ==> HasDescriptors(k, d) && d.tunFd != d.ctrlSock
  {
  }

  /** In every reachable state each started device has its own two open descriptors. */
  lemma DescriptorSafety(s: Sys, es: seq<Event>, dv: nat, other: nat)
    requires Initial(s) && Run(s, es) && OrderlyRun(s, es)
    requires var t := Final(s, es); dv in t.devs && other in t.devs && dv != other
    ensures var t := Final(s, es);
      && (t.devs[dv].Started() ==>
            HasDescriptors(t.k, t.devs[dv]) && t.devs[dv].tunFd != t.devs[dv].ctrlSock)
      && OwnedBy(t.devs[dv]) !! OwnedBy(t.devs[other])
  {
    InitialIsInv(s);
    RunKeepsInv(s, es);
    var t := Final(s, es);
    TwoDevicesApart(t.k, t.devs[dv], t.devs[other]);
  }

  /** The table after any run: what the application made of its own descriptors, what
      started devices own, and one descriptor for every start that failed after opening
      the clone device. */
  lemma DescriptorBalance(s: Sys, es: seq<Event>)
    requires Initial(s) && Run(s, es) && OrderlyRun(s, es)
    ensures var t, app := Final(s, es), AppFds(s.k.files.Keys, es);
      && t.k.files.Keys == app + Owned(t.devs) + t.leaked
      && |t.leaked| == LeakCount(es)
      && ForeignFds(t.k) == app
      && t.leaked !! app && Owned(t.devs) !! app + t.leaked
  {
    InitialIsInv(s);
    RunKeepsInv(s, es);
    LedgerBalances(Final(s, es));
  }

  lemma LedgerBalances(t: Sys)
    requires Inv(t)
    ensures t.k.files.Keys == ForeignFds(t.k) + Owned(t.devs) + t.leaked
    ensures t.leaked !! ForeignFds(t.k) && Owned(t.devs) !! ForeignFds(t.k) + t.leaked
  {
    TableParts(t.k);
  }

  lemma TableParts(k: Kernel)
    ensures k.files.Keys == ForeignFds(k) + NotForeign(k) && ForeignFds(k) !! NotForeign(k)
  {
  }

  /** When nothing leaked and every device is gone, the table is what the application
      itself made of it. */
  lemma TableComesBack(s: Sys, es: seq<Event>)
    requires Initial(s) && Run(s, es) && OrderlyRun(s, es)
    requires LeakCount(es) == 0 && Final(s, es).devs == map[]
    ensures Final(s, es).k.files == map fd | fd in AppFds(s.k.files.Keys, es) :: Foreign
  {
    DescriptorBalance(s, es);
    var t := Final(s, es);
    assert Owned(t.devs) == {};
    AllForeign(t.k);
  }

  lemma AllForeign(k: Kernel)
    requires ForeignFds(k) == k.files.Keys
    ensures k.files == map fd | fd in k.files.Keys :: Foreign
  {
    forall fd | fd in k.files
      ensures k.files[fd] == Foreign
    {
      assert fd in ForeignFds(k);
    }
  }

  // ---- A device sees only its own calls ------------------------------------------------

  /** A started device together with its interface. */
  datatype View = View(d: Dev, iface: Interface)

  ghost predicate Live(s: Sys, dv: nat) {
    dv in s.devs && s.devs[dv].Started() && Attached(s.k, s.devs[dv])
  }

  ghost function ViewOf(s: Sys, dv: nat): View
    requires Live(s, dv)
  {
    View(s.devs[dv], s.k.ifs[InterfaceId(s.k, s.devs[dv])])
  }

  /** What a call of the device itself does to it; all other calls do nothing. */
  function OwnStep(v: View, e: Event, dv: nat): View {
    match e
    case UpDown(d, up, ok) =>
      if d != dv || !ok then v else
        var flags := SetUp(v.d.flags, up);
        View(v.d.(flags := flags), v.iface.(flags := flags))
    case Rename(d, name, ok) =>
      if d != dv || !ok || name == [] || 0 in name || |name| > IF_NAMESIZE then v else
        View(DevAfterRename(v.d, name), v.iface.(name := Take(name, 15)))
    case SetMac(d, mac, ok) =>
      if d != dv then v else
        View(v.d.(hwaddr := mac), if ok then v.iface.(mac := mac) else v.iface)
    case _ => v
  }

  function OwnRun(v: View, es: seq<Event>, dv: nat): View
    decreases |es|
  {
    if es == [] then v else OwnRun(OwnStep(v, es[0], dv), es[1..], dv)
  }

  predicate Keeps(e: Event, dv: nat) {
    !(e.Release? && e.dv == dv) && !(e.Destroy? && e.dv == dv)
  }

  /** The device is disposed of nowhere in the run. */
  predicate KeptThroughout(es: seq<Event>, dv: nat) {
    forall i | 0 <= i < |es| :: Keeps(es[i], dv)
  }

  /** A call on another device, or of the application, is invisible. */
  lemma OtherStepUnseen(s: Sys, e: Event, dv: nat)
    requires Inv(s) && Enabled(s, e) && Orderly(s, e) && Live(s, dv)
    requires e.OnDevice() ==> e.dv != dv
    ensures Apply(s, e).devs.Keys >= {dv} && Apply(s, e).devs[dv] == s.devs[dv]
    ensures Unseen(s.k, Apply(s, e).k, s.devs[dv])
  {
    var other := s.devs[dv];
    assert DevOk(s.k, other);
    match e
    case Init(_) =>
    case AppOpen(_) =>
    case AppClose(_) =>
    case Start(a, mode, tun, out) =>
      StartUnseen(s.k, s.devs[a], mode, tun, out, other);
    case Release(a) =>
      DisposalUnseen(s, e, dv);
    case Destroy(a, cleared) =>
      DisposalUnseen(s, e, dv);
    case UpDown(a, _, _) =>
      RequestUnseen(s, e, dv);
    case Rename(a, _, _) =>
      RequestUnseen(s, e, dv);
    case SetMac(a, _, _) =>
      RequestUnseen(s, e, dv);
  }

  lemma DisposalUnseen(s: Sys, e: Event, dv: nat)
    requires Inv(s) && Enabled(s, e) && Orderly(s, e) && (e.Release? || e.Destroy?) && Live(s, dv) && e.dv != dv
    ensures Unseen(s.k, Apply(s, e).k, s.devs[dv])
  {
    var d, other := s.devs[e.dv], s.devs[dv];
    assert DevOk(s.k, d) && DevOk(s.k, other) && Apart(d, other);
    if e.Release? {
      ReleaseUnseen(s.k, d, other);
    } else {
      DestroyUnseen(s.k, d, e.cleared, other);
    }
  }

  lemma DestroyUnseen(k: Kernel, d: Dev, cleared: bool, other: Dev)
    requires k.Wf() && DevOk(k, d) && DevOk(k, other) && Apart(d, other) && other.Started()
    requires d.Started() || d.ctrlSock !in k.files
    ensures Unseen(k, KernelAfterDestroy(k, d, cleared), other)
  {
    var k0 := KernelAfterClear(k, d, cleared);
    ClearWf(k, d, cleared);
    ClearUnseen(k, d, cleared, other);
    ReleaseUnseen(k0, d, other);
    UnseenTwice(k, k0, KernelAfterRelease(k0, d), other);
  }

  lemma RequestUnseen(s: Sys, e: Event, dv: nat)
    requires Inv(s) && Enabled(s, e) && (e.UpDown? || e.Rename? || e.SetMac?) && Live(s, dv) && e.dv != dv
    ensures Unseen(s.k, Apply(s, e).k, s.devs[dv])
  {
    var d, other := s.devs[e.dv], s.devs[dv];
    assert DevOk(s.k, d) && DevOk(s.k, other) && Apart(d, other);
    RequestsReachOwn(s.k, d);
    if d.Started() {
      OtherInterface(s.k, d, other);
    }
  }

  lemma OwnStepIsSeen(s: Sys, e: Event, dv: nat)
    requires Inv(s) && Enabled(s, e) && Live(s, dv) && e.OnDevice() && e.dv == dv && Keeps(e, dv)
    ensures Live(Apply(s, e), dv) && ViewOf(Apply(s, e), dv) == OwnStep(ViewOf(s, dv), e, dv)
    ensures InterfaceId(Apply(s, e).k, Apply(s, e).devs[dv]) == InterfaceId(s.k, s.devs[dv])
  {
    assert DevOk(s.k, s.devs[dv]);
    RequestsReachOwn(s.k, s.devs[dv]);
  }

  /** After any run, a device and its interface are what the device's own successful
      calls made of them. */
  lemma {:induction false} NonInterference(s: Sys, es: seq<Event>, dv: nat)
    requires Inv(s) && Run(s, es) && OrderlyRun(s, es) && Live(s, dv) && KeptThroughout(es, dv)
    ensures var t := Final(s, es);
      && Live(t, dv) && ViewOf(t, dv) == OwnRun(ViewOf(s, dv), es, dv)
      && InterfaceId(t.k, t.devs[dv]) == InterfaceId(s.k, s.devs[dv])
      && t.devs[dv].tunFd == s.devs[dv].tunFd && t.devs[dv].ctrlSock == s.devs[dv].ctrlSock
    decreases |es|
  {
    if es != [] {
      hide Inv, Enabled, Apply, Orderly;
      var e, s' := es[0], Apply(s, es[0]);
      assert Keeps(es[0], dv);
      if e.OnDevice() && e.dv == dv {
        OwnStepIsSeen(s, e, dv);
      } else {
        OtherStepUnseen(s, e, dv);
      }
      StepKeepsInv(s, e);
      NonInterference(s', es[1..], dv);
    }
  }

  // ---- Flags, names, persistence ---------------------------------------------------------

  /** Whether the last successful tuntap_up or tuntap_down of the device was an up. */
  function LastUp(es: seq<Event>, dv: nat, now: bool): bool {
    if es == [] then now
    else LastUp(es[1..], dv, if es[0].UpDown? && es[0].dv == dv && es[0].ok then es[0].up else now)
  }

  /** The name the last successful tuntap_set_ifname of the device asked for. */
  function LastName(es: seq<Event>, dv: nat, now: seq<byte>): seq<byte> {
    if es == [] then now
    else LastName(es[1..], dv, if es[0].Rename? && es[0].dv == dv && es[0].ok then es[0].name else now)
  }

  lemma {:induction false} OwnFlags(v: View, es: seq<Event>, dv: nat)
    requires v.d.flags == v.iface.flags
    ensures var w := OwnRun(v, es, dv);
      && w.d.flags == w.iface.flags
      && w.d.flags / 2 == v.d.flags / 2
      && (w.d.flags % 2 == 1 <==> LastUp(es, dv, v.d.flags % 2 == 1))
    decreases |es|
  {
    if es != [] {
      NarrowFits(v.d.flags);
      OwnFlags(OwnStep(v, es[0], dv), es[1..], dv);
    }
  }

  lemma {:induction false} OwnPersist(v: View, es: seq<Event>, dv: nat)
    ensures OwnRun(v, es, dv).iface.persist == v.iface.persist
    ensures OwnRun(v, es, dv).iface.kind == v.iface.kind
    decreases |es|
  {
    if es != [] {
      OwnPersist(OwnStep(v, es[0], dv), es[1..], dv);
    }
  }

  /** In every started state the remembered flags are the kernel's, 16-bit, with
      IFF_UP as last set and every other bit as it was. */
  lemma CachedFlags(s: Sys, es: seq<Event>, dv: nat)
    requires Inv(s) && Run(s, es) && OrderlyRun(s, es) && Live(s, dv) && KeptThroughout(es, dv)
    ensures Live(Final(s, es), dv)
    ensures var flags, now := s.devs[dv].flags, Final(s, es).devs[dv].flags;
      && now == ViewOf(Final(s, es), dv).iface.flags == Narrow(now)
      && now / 2 == flags / 2
      && (now % 2 == 1 <==> LastUp(es, dv, flags % 2 == 1))
  {
    assert DevOk(s.k, s.devs[dv]);
    var v := ViewOf(s, dv);
    NonInterference(s, es, dv);
    OwnFlags(v, es, dv);
    NarrowFits(OwnRun(v, es, dv).iface.flags);
  }

  lemma TextAfterRename(d: Dev, name: seq<byte>)
    requires |name| <= IF_NAMESIZE && 0 !in name && d.ifName[16] == 0
    ensures Text(DevAfterRename(d, name).ifName) == name
  {
    TextIs(DevAfterRename(d, name).ifName, name);
  }

  lemma {:induction false} NameRun(s: Sys, es: seq<Event>, dv: nat)
    requires Inv(s) && Run(s, es) && OrderlyRun(s, es) && Live(s, dv) && KeptThroughout(es, dv)
    ensures dv in Final(s, es).devs
    ensures Text(Final(s, es).devs[dv].ifName) == LastName(es, dv, Text(s.devs[dv].ifName))
    decreases |es|
  {
    if es != [] {
      hide Inv, Enabled, Apply, Orderly;
      var e, s' := es[0], Apply(s, es[0]);
      assert Keeps(es[0], dv);
      if e.OnDevice() && e.dv == dv {
        OwnStepIsSeen(s, e, dv);
        OwnName(s, e, dv);
      } else {
        OtherStepUnseen(s, e, dv);
      }
      StepKeepsInv(s, e);
      NameRun(s', es[1..], dv);
    }
  }

  lemma OwnName(s: Sys, e: Event, dv: nat)
    requires Inv(s) && Enabled(s, e) && Live(s, dv) && e.OnDevice() && e.dv == dv && Keeps(e, dv)
    ensures dv in Apply(s, e).devs
    ensures Text(Apply(s, e).devs[dv].ifName) == if e.Rename? && e.ok then e.name else Text(s.devs[dv].ifName)
  {
    assert DevOk(s.k, s.devs[dv]);
    if e.Rename? && e.ok {
      TextAfterRename(s.devs[dv], e.name);
    }
  }

  lemma NameIsPrefix(buffer: NameBuffer)
    requires buffer[16] == 0
    ensures Text(buffer[..15]) == Take(Text(buffer), 15)
  {
    var text := Text(buffer);
    if |text| < |buffer| {
      TextEnds(buffer);
    }
    TextIs(buffer[..15], Take(text, 15));
  }

  /** The name buffer stays terminated and reads back exactly the last name asked for;
      the kernel has the first fifteen bytes of it. */
  lemma CachedName(s: Sys, es: seq<Event>, dv: nat)
    requires Inv(s) && Run(s, es) && OrderlyRun(s, es) && Live(s, dv) && KeptThroughout(es, dv)
    ensures var t, name := Final(s, es), LastName(es, dv, Text(s.devs[dv].ifName));
      && Live(t, dv) && t.devs[dv].ifName[16] == 0
      && Text(t.devs[dv].ifName) == name
      && ViewOf(t, dv).iface.name == Take(name, 15)
      && (Text(t.devs[dv].ifName) == ViewOf(t, dv).iface.name <==> |name| <= 15)
  {
    NonInterference(s, es, dv);
    NameRun(s, es, dv);
    RunKeepsInv(s, es);
    var t := Final(s, es);
    assert DevOk(t.k, t.devs[dv]);
    NameIsPrefix(t.devs[dv].ifName);
  }

  /** Sixteen letters, as many as tuntap_set_ifname accepts. */
  const LONG_NAME: seq<byte> := seq(16, _ => 0x61)

  /** Any started device can be renamed to it, unless its first fifteen letters are taken:
      the buffer then reads as asked, and the kernel has one letter less. */
  lemma LongNameIsCut(s: Sys, dv: nat)
    requires Inv(s) && Live(s, dv) && s.k.Find(Take(LONG_NAME, 15)).None?
    ensures var e := Rename(dv, LONG_NAME, true);
      && Enabled(s, e) && Live(Apply(s, e), dv)
      && Text(Apply(s, e).devs[dv].ifName) == LONG_NAME
      && ViewOf(Apply(s, e), dv).iface.name == Take(LONG_NAME, 15) != LONG_NAME
  {
    var d := s.devs[dv];
    assert DevOk(s.k, d);
    RequestsReachOwn(s.k, d);
    TextAfterRename(d, LONG_NAME);
    assert |Take(LONG_NAME, 15)| == 15;
    OwnStepIsSeen(s, Rename(dv, LONG_NAME, true), dv);
  }

  lemma AddedCount(k: Kernel, d: Dev, mode: int, tun: int, out: Outcome)
    requires MayStart(k, d, mode, tun, out)
    ensures |Added(out)| == if out.Up? then 2 else if out.TunLeft? then 1 else 0
  {
    if out.Up? {
      assert Added(out) == {out.fd} + {out.sock};
    }
  }

  /** A failed start changes nothing of the device but its socket number, which is then
      closed again; the table grows by two descriptors, by one leaked, or not at all. */
  lemma StartIsAllOrNothing(k: Kernel, d: Dev, mode: int, tun: int, out: Outcome)
    requires k.Wf() && MayStart(k, d, mode, tun, out)
    ensures var k', d' := KernelAfterStart(k, mode, out), DevAfterStart(k, d, out);
      && (!out.Up? ==> d' == d.(ctrlSock := d'.ctrlSock))
      && (!out.Up? && !d.Started() ==> d'.ctrlSock == d.ctrlSock || d'.ctrlSock !in k'.files)
      && k'.files.Keys == k.files.Keys + Added(out) && Added(out) !! k.files.Keys
      && (out.Up? ==> Added(out) == OwnedBy(d'))
    ensures |Added(out)| == if out.Up? then 2 else if out.TunLeft? then 1 else 0
  {
    StartFiles(k, d, mode, tun, out);
    AddedCount(k, d, mode, tun, out);
  }

  /** Unless a system call fails without cause, how much the table grows is settled before
      the call: one descriptor leaks exactly when the start is usable but cannot have the
      unit it names. */
  lemma GrowthExactlyWhen(k: Kernel, d: Dev, mode: int, tun: int, out: Outcome)
    requires k.Wf() && MayStart(k, d, mode, tun, out) && Numbered(k, out) && Reason(k, d, mode, tun, out)
    ensures |Added(out)| == if !Usable(d, mode, tun) then 0 else if GetsUnit(k, mode, tun) then 2 else 1
  {
    hide Usable, GetsUnit;
    AddedCount(k, d, mode, tun, out);
    EndsExactlyWhen(k, d, mode, tun, out);
  }

  // ---- What a start promises, by the numbers of tuntap.h -------------------------------

  lemma {:induction false} DecimalLength(n: nat, digits: nat)
    requires digits >= 1 && n < Pow10(digits)
    ensures |Decimal(n)| <= digits
    decreases digits
  {
    if n >= 10 {
      DecimalLength(n / 10, digits - 1);
    }
  }

  function Pow10(k: nat): nat {
    if k == 0 then 1 else 10 * Pow10(k - 1)
  }

  /** No `int` makes a name that the name field cuts short. */
  lemma WantedNameIs(mode: int, tun: int)
    requires ValidMode(mode) && tun >= 0 && tun != ID_ANY && InInt(tun)
    ensures WantedName(mode, tun) == DriverName(Unit(mode == 1 || mode == 5, tun))
  {
    assert Pow10(10) == 10_000_000_000 by { assert Pow10(5) == 100_000; }
    DecimalLength(tun, 10);
  }

  /** Two descriptor numbers that the code accepts for a named unit are free. */
  ghost predicate TwoFree(k: Kernel) {
    exists a, b :: 0 <= a < b <= 256 && a !in k.files && b !in k.files
  }

  /** If an interface of that name exists, it is of that kind, and not in use. */
  ghost predicate NotTaken(k: Kernel, kind: Kind, name: seq<byte>) {
    forall id | id in k.ifs && k.ifs[id].name == name ::
      k.ifs[id].kind == kind && forall fd | fd in k.files :: k.files[fd] != Tun(Some(id))
  }

  lemma NotTakenIsClaimable(k: Kernel, kind: Kind, name: seq<byte>)
    requires k.Wf() && kind != Ordinary && name != []
    ensures k.Claimable(kind, name) <==> NotTaken(k, kind, name)
  {
    if k.Find(name).Some? {
      var id := k.Find(name).value;
      if fd :| k.Holds(fd, id) {
        assert k.Held(id) && fd in k.files && k.files[fd] == Tun(Some(id));
      } else {
        assert forall fd | fd in k.files :: k.files[fd] == Tun(Some(id)) ==> k.Holds(fd, id);
      }
    }
  }

  /** When a start succeeds, if no system call fails without cause. */
  lemma StartSucceedsExactlyWhen(k: Kernel, d: Dev, mode: int, tun: int, out: Outcome)
    requires k.Wf() && InInt(tun)
    requires MayStart(k, d, mode, tun, out) && Numbered(k, out) && Reason(k, d, mode, tun, out)
    ensures out.Up? <==>
      && d.tunFd == -1 && tun >= 0 && (mode == 1 || mode == 2 || ((mode == 5 || mode == 6) && tun != 257))
      && (tun != 257 ==>
            && TwoFree(k)
            && NotTaken(k, if mode == 1 || mode == 5 then TapKind else TunKind,
                        DriverName(Unit(mode == 1 || mode == 5, tun))))
  {
    hide MayStart, Numbered, Reason, Kernel.Wf, Kernel.Claimable, WantedName;
    EndsExactlyWhen(k, d, mode, tun, out);
    if Usable(d, mode, tun) && tun != ID_ANY {
      WantedNameIs(mode, tun);
      DriverNameIs(Unit(mode == 1 || mode == 5, tun));
      NotTakenIsClaimable(k, ModeKind(mode), WantedName(mode, tun));
      assert Crowded(k) <==> !TwoFree(k);
    }
  }

  /** What a successful start has made, and what the device remembers of it. */
  lemma StartedInterface(k: Kernel, d: Dev, mode: int, tun: int, out: Outcome)
    requires k.Wf() && DevOk(k, d) && InInt(tun) && MayStart(k, d, mode, tun, out) && out.Up?
    ensures var k', d' := KernelAfterStart(k, mode, out), DevAfterStart(k, d, out);
      && Attached(k', d')
      && var i := k'.ifs[InterfaceId(k', d')];
         && (mode == 1 || mode == 2 || mode == 5 || mode == 6)
         && i.kind == (if mode == 1 || mode == 5 then TapKind else TunKind)
         && (i.persist <==> mode >= 5 || (out.link.Existing? && k.ifs[out.link.id].persist))
         && (tun != 257 ==> d'.tunFd <= 256 && NamedAfter(i.name, mode == 1 || mode == 5, tun))
         && d'.Name() == i.name && d'.flags == i.flags
         && (d'.hwaddr == i.mac || d'.hwaddr == d.hwaddr)
         && (mode == 2 || mode == 6 ==> d'.hwaddr == d.hwaddr)
         && (Reason(k, d, mode, tun, out) && (mode == 1 || mode == 5) ==> d'.hwaddr == i.mac)
  {
    StartedIsOk(k, d, mode, tun, out);
    LinkedWf(k, out.fd, ModeKind(mode), WantedName(mode, tun), out.link, WantsPersist(mode));
    if tun != ID_ANY {
      WantedNameIs(mode, tun);
      DriverNameIs(Unit(mode == 1 || mode == 5, tun));
    }
  }

  /** "tap" or "tun", and the number in decimal without leading zeros */
  predicate NamedAfter(name: seq<byte>, tap: bool, number: int) {
    && |name| > 3 && name[..3] == (if tap then [0x74, 0x61, 0x70] else [0x74, 0x75, 0x6e])
    && number >= 0 && ParseDecimal(name[3..]) == Some(number) && (name[3] == 48 ==> number == 0)
  }

  /** What becomes of the interface of a start, whatever happens in between. */
  lemma Lifetime(s: Sys, dv: nat, mode: int, tun: int, out: Outcome, es: seq<Event>)
    requires Inv(s) && Enabled(s, Start(dv, mode, tun, out)) && out.Up?
    requires var s1 := Apply(s, Start(dv, mode, tun, out));
      Run(s1, es) && OrderlyRun(s1, es) && KeptThroughout(es, dv)
    ensures var t := Final(Apply(s, Start(dv, mode, tun, out)), es);
      var id, stays := s.k.LinkedId(out.link), WantsPersist(mode) || LinkedInterface(s.k, out.link).persist;
      && Live(t, dv) && InterfaceId(t.k, t.devs[dv]) == id && id in t.k.ifs
      && KernelAfterRelease(t.k, t.devs[dv]).ifs == (if stays then t.k.ifs else t.k.ifs - {id})
      && MayDestroy(t.k, t.devs[dv], true)
      && KernelAfterDestroy(t.k, t.devs[dv], true).ifs == t.k.ifs - {id}
      && KernelAfterDestroy(t.k, t.devs[dv], false).ifs == (if stays then t.k.ifs else t.k.ifs - {id})
  {
    var e := Start(dv, mode, tun, out);
    var s1 := Apply(s, e);
    StepKeepsInv(s, e);
    LinkedWf(s.k, out.fd, ModeKind(mode), WantedName(mode, tun), out.link, WantsPersist(mode));
    assert DevOk(s1.k, s1.devs[dv]);
    NonInterference(s1, es, dv);
    OwnPersist(ViewOf(s1, dv), es, dv);
    var t := Final(s1, es);
    InterfacesAfterDisposal(t.k, t.devs[dv]);
    assert t.k.Holds(t.devs[dv].tunFd, s.k.LinkedId(out.link));
  }

  lemma InterfacesAfterDisposal(k: Kernel, d: Dev)
    requires d.Started() && Attached(k, d)
    ensures var id := InterfaceId(k, d);
      var kept := if k.ifs[id].persist then k.ifs else k.ifs - {id};
      && KernelAfterRelease(k, d).ifs == kept
      && KernelAfterDestroy(k, d, false).ifs == kept
      && KernelAfterDestroy(k, d, true).ifs == k.ifs - {id}
  {
  }
}
