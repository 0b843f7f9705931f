/** The link between the code and the runs: whatever call a client makes on one of
    its devices, it is one event of a run. */
module LinuxClient {
  import opened Common
  import opened IfRequest
  import opened DeviceState
  import opened LinuxKernel
  import opened LinuxDevice
  import opened LinuxRuns

  datatype Call =
    | CallStart(mode: int, tun: int)
    | CallRelease
    | CallDestroy
    | CallUp
    | CallDown
    | CallSetIfname(name: Option<seq<byte>>)
    | CallSetHwaddr(isRandom: bool, random: seq<int>, parsed: Option<Mac>)

  /** What C demands of the arguments: `int`s, and a string without zero bytes. */
  predicate Passable(c: Call) {
    match c
    case CallStart(mode, tun) => InInt(mode) && InInt(tun)
    case CallSetIfname(name) => name.Some? ==> 0 !in name.value
    case CallSetHwaddr(_, random, _) => |random| == 6
    case _ => true
  }

  /** The event is the call, ending as `r` says. */
  predicate Reports(c: Call, e: Event, r: int)
    requires Passable(c)
  {
    match c
    case CallStart(mode, tun) =>
      e.Start? && e.mode == mode && e.tun == tun && r == if e.out.Up? then 0 else -1
    case CallRelease => e.Release?
    case CallDestroy => e.Destroy?
    case CallUp => e.UpDown? && e.up && r == if e.ok then 0 else -1
    case CallDown => e.UpDown? && !e.up && r == if e.ok then 0 else -1
    case CallSetIfname(name) =>
      e.Rename? && (r == if e.ok then 0 else -1) && (e.ok ==> name == Some(e.name))
    case CallSetHwaddr(isRandom, random, parsed) =>
      e.SetMac? && (r == if e.ok then 0 else -1) && (isRandom ==> e.mac == RandomMac(random))
      && (!isRandom && parsed.Some? ==> e.mac == parsed.value)
  }

  /** The call went through. */
  predicate Succeeded(e: Event) {
    match e
    case Start(_, _, _, out) => out.Up?
    case Destroy(_, cleared) => cleared
    case UpDown(_, _, ok) => ok
    case Rename(_, _, ok) => ok
    case SetMac(_, _, ok) => ok
    case _ => true
  }

  /** Nothing is in the way of the call. */
  ghost predicate Possible(k: Kernel, d: Dev, c: Call) {
    match c
    case CallStart(mode, tun) => Usable(d, mode, tun) && GetsUnit(k, mode, tun)
    case CallRelease => true
    case CallSetIfname(name) =>
      d.Started() && name.Some? && 0 < |name.value| <= 16
      && (k.Find(Take(name.value, 15)).None? || Take(name.value, 15) == d.Name())
    case CallSetHwaddr(isRandom, _, parsed) => d.Started() && (isRandom || parsed.Some?)
    case _ => d.Started()
  }

  /** A device reaches its interface exactly while it is started. */
  lemma ReachesExactlyWhen(k: Kernel, d: Dev)
    requires k.Wf() && DevOk(k, d)
    ensures Reaches(k, d) <==> d.Started()
    ensures k.HoldsSome(d.tunFd) <==> d.Started()
    ensures MayDestroy(k, d, true) <==> d.Started()
  {
    RequestsReachOwn(k, d);
    if d.Started() {
      assert k.Holds(d.tunFd, InterfaceId(k, d));
    }
  }

  lemma RenamesExactlyWhen(k: Kernel, d: Dev, name: seq<byte>)
    requires k.Wf() && DevOk(k, d) && 0 !in name
    ensures MayRenameDev(k, d, name) <==> Possible(k, d, CallSetIfname(Some(name)))
  {
    RequestsReachOwn(k, d);
  }

  /** `s` is the process; the device object and the kernel object are its `dv` and `k`. */
  ghost predicate Shows(s: Sys, dv: nat, host: Host, dev: Device)
    reads host, dev, dev.hwaddr, dev.ifName
  {
    dev.Valid() && host.k == s.k && dv in s.devs && s.devs[dv] == dev.State()
  }

  predicate Disposal(c: Call) {
    c.CallRelease? || c.CallDestroy?
  }

  method Perform(host: Host, dev: Device, c: Call, ghost s: Sys, ghost dv: nat) returns (r: int, ghost e: Event)
    requires Inv(s) && Shows(s, dv, host, dev) && Passable(c)
    modifies host, dev, dev.hwaddr, dev.ifName
    ensures e.OnDevice() && e.dv == dv && Reports(c, e, r)
    ensures Enabled(s, e) && dev.Valid() && host.k == Apply(s, e).k
    ensures if Disposal(c) then dv !in Apply(s, e).devs else Shows(Apply(s, e), dv, host, dev)
    ensures host.faults == old(host.faults) ==> (Succeeded(e) <==> Possible(s.k, s.devs[dv], c))
  {
    r := 0;
    ghost var d := s.devs[dv];
    assert DevOk(s.k, d);
    ReachesExactlyWhen(s.k, d);
    match c
    case CallStart(mode, tun) =>
      ghost var out;
      r, out := dev.Start(host, mode, tun);
      e := Start(dv, mode, tun, out);
    case CallRelease =>
      dev.Release(host);
      e := Release(dv);
    case CallDestroy =>
      ghost var cleared := dev.Destroy(host);
      e := Destroy(dv, cleared);
    case _ =>
      r, e := PerformRequest(host, dev, c, s, dv);
  }

  /** The calls that send one request about the interface. */
  method PerformRequest(host: Host, dev: Device, c: Call, ghost s: Sys, ghost dv: nat)
    returns (r: int, ghost e: Event)
    requires Inv(s) && Shows(s, dv, host, dev) && Passable(c) && !c.CallStart? && !Disposal(c)
    modifies host, dev, dev.hwaddr, dev.ifName
    ensures e.OnDevice() && e.dv == dv && Reports(c, e, r)
    ensures Enabled(s, e) && dev.Valid() && host.k == Apply(s, e).k
    ensures Shows(Apply(s, e), dv, host, dev)
    ensures host.faults == old(host.faults) ==> (Succeeded(e) <==> Possible(s.k, s.devs[dv], c))
  {
    ghost var d := s.devs[dv];
    assert DevOk(s.k, d);
    ReachesExactlyWhen(s.k, d);
    if c.CallSetIfname? && c.name.Some? {
      RenamesExactlyWhen(s.k, d, c.name.value);
    }
    match c
    case CallUp =>
      r := dev.Up(host);
      e := UpDown(dv, true, r == 0);
    case CallDown =>
      r := dev.Down(host);
      e := UpDown(dv, false, r == 0);
    case CallSetIfname(name) =>
      r := dev.SetIfname(host, name);
      e := Rename(dv, if r == 0 then name.value else [], r == 0);
    case CallSetHwaddr(isRandom, random, parsed) =>
      r := dev.SetHwaddr(host, isRandom, random, parsed);
      e := SetMac(dv, dev.State().hwaddr, r == 0);
  }

  // ---- All the devices of the process ------------------------------------------------

  /** Two device objects share nothing. */
  predicate Distinct(dev: Device, other: Device) {
    && dev != other
    && dev.hwaddr != other.hwaddr && dev.hwaddr != other.ifName
    && dev.ifName != other.hwaddr && dev.ifName != other.ifName
  }

  /** The objects are exactly the devices of the process `s`. */
  ghost predicate ShowsAll(s: Sys, host: Host, objs: map<nat, Device>)
    reads host, objs.Values
    reads set dv | dv in objs :: objs[dv].hwaddr
    reads set dv | dv in objs :: objs[dv].ifName
  {
    && host.k == s.k && objs.Keys == s.devs.Keys
    && (forall dv | dv in objs :: Shows(s, dv, host, objs[dv]))
    && (forall dv, other | dv in objs && other in objs && dv != other :: Distinct(objs[dv], objs[other]))
  }

  /** An event on one device leaves the others of the process as they are. */
  lemma OthersStay(s: Sys, e: Event)
    requires Enabled(s, e) && e.OnDevice()
    ensures forall other | other != e.dv :: other in Apply(s, e).devs <==> other in s.devs
    ensures forall other | other in s.devs && other != e.dv :: Apply(s, e).devs[other] == s.devs[other]
    ensures !e.Init? && !e.Release? && !e.Destroy? ==> Apply(s, e).devs.Keys == s.devs.Keys
    ensures e.Release? || e.Destroy? ==> Apply(s, e).devs.Keys == s.devs.Keys - {e.dv}
    ensures e.Init? ==> Apply(s, e).devs.Keys == s.devs.Keys + {e.dv}
  {
  }

  /** A call on one device, among all the devices of the process. */
  method PerformAmong(host: Host, objs: map<nat, Device>, dv: nat, c: Call, ghost s: Sys)
    returns (r: int, ghost e: Event)
    requires Inv(s) && ShowsAll(s, host, objs) && Passable(c) && dv in objs
    modifies host, objs[dv], objs[dv].hwaddr, objs[dv].ifName
    ensures e.OnDevice() && e.dv == dv && Reports(c, e, r) && Enabled(s, e)
    ensures ShowsAll(Apply(s, e), host, if Disposal(c) then objs - {dv} else objs)
    ensures host.faults == old(host.faults) ==> (Succeeded(e) <==> Possible(s.k, s.devs[dv], c))
  {
    hide Inv, Enabled, Apply, Reports, Possible;
    r, e := Perform(host, objs[dv], c, s, dv);
    OthersStay(s, e);
    forall other | other in objs && other != dv
      ensures Shows(Apply(s, e), other, host, objs[other])
    {
      assert Distinct(objs[dv], objs[other]) && old(Shows(s, other, host, objs[other]));
    }
  }

  /** tuntap_init, among all the devices of the process */
  method Create(host: Host, objs: map<nat, Device>, dv: nat, ghost s: Sys) returns (objs': map<nat, Device>)
    requires ShowsAll(s, host, objs) && dv !in objs
    ensures Enabled(s, Init(dv)) && ShowsAll(Apply(s, Init(dv)), host, objs')
    ensures dv in objs' && fresh(objs'[dv]) && objs' == objs[dv := objs'[dv]]
  {
    var dev := new Device();
    objs' := objs[dv := dev];
  }

  /** The application opens a descriptor of its own, */
  method AppOpens(host: Host, objs: map<nat, Device>, ghost s: Sys) returns (fd: int)
    requires ShowsAll(s, host, objs)
    modifies host
    ensures fd == -1 ==> ShowsAll(s, host, objs)
    ensures fd != -1 ==> Enabled(s, AppOpen(fd)) && ShowsAll(Apply(s, AppOpen(fd)), host, objs)
  {
    fd := host.OpenFile(Foreign);
  }

  /** and closes it. */
  method AppCloses(host: Host, objs: map<nat, Device>, fd: int, ghost s: Sys)
    requires ShowsAll(s, host, objs) && fd in host.k.files && host.k.files[fd].Foreign?
    modifies host
    ensures Enabled(s, AppClose(fd)) && ShowsAll(Apply(s, AppClose(fd)), host, objs)
  {
    host.Close(fd);
  }
}
