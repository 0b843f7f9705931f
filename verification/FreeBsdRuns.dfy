/** A started FreeBSD device through any run of renames, in a kernel that everybody
    else keeps changing: what tuntap_destroy removes, and what it closes. */
module FreeBsdRuns {
  import opened Common
  import opened IfRequest
  import opened DeviceState
  import opened DriverNames
  import opened FreeBsdKernel
  import opened FreeBsdDevice

  /** A rename by the device, or anything at all done elsewhere. */
  datatype Event = Rename(name: seq<byte>, ok: bool) | Elsewhere(k': Kernel)

  datatype State = State(k: Kernel, d: Dev)

  /** Others may do anything but close the device's descriptors, and rename or remove
      its interface. Flags and address may change. */
  ghost predicate LeavesAlone(k: Kernel, k': Kernel, d: Dev, u: Unit) {
    && k'.Wf()
    && d.tunFd in k'.files && k'.files[d.tunFd] == Tun(u)
    && k'.IsSocket(d.ctrlSock)
    && u in k.ifs && u in k'.ifs && k'.ifs[u].name == k.ifs[u].name
  }

  ghost predicate Enabled(s: State, e: Event, u: Unit) {
    match e
    case Rename(name, ok) => ok ==> MayRenameDev(s.k, s.d, name)
    case Elsewhere(k') => LeavesAlone(s.k, k', s.d, u)
  }

  ghost function Apply(s: State, e: Event, u: Unit): State
    requires Enabled(s, e, u)
  {
    match e
    case Rename(name, ok) =>
      if ok then State(KernelAfterRename(s.k, s.d, name), DevAfterRename(s.d, name)) else s
    case Elsewhere(k') => s.(k := k')
  }

  ghost predicate Run(s: State, es: seq<Event>, u: Unit)
    decreases |es|
  {
    es == [] || (Enabled(s, es[0], u) && Run(Apply(s, es[0], u), es[1..], u))
  }

  ghost function Final(s: State, es: seq<Event>, u: Unit): State
    requires Run(s, es, u)
    decreases |es|
  {
    if es == [] then s else Final(Apply(s, es[0], u), es[1..], u)
  }

  lemma StepKeepsOwnership(s: State, e: Event, u: Unit)
    requires s.k.Wf() && Owns(s.k, s.d, u) && Enabled(s, e, u)
    ensures var t := Apply(s, e, u);
      t.k.Wf() && Owns(t.k, t.d, u) && t.d.tunFd == s.d.tunFd && t.d.ctrlSock == s.d.ctrlSock
  {
    if e.Rename? && e.ok {
      s.k.FindIs(u);
      NameAfterRename(s.d, e.name);
    }
  }

  lemma {:induction false} RunKeepsOwnership(s: State, es: seq<Event>, u: Unit)
    requires s.k.Wf() && Owns(s.k, s.d, u) && Run(s, es, u)
    ensures var t := Final(s, es, u);
      t.k.Wf() && Owns(t.k, t.d, u) && t.d.tunFd == s.d.tunFd && t.d.ctrlSock == s.d.ctrlSock
    decreases |es|
  {
    if es != [] {
      StepKeepsOwnership(s, es[0], u);
      RunKeepsOwnership(Apply(s, es[0], u), es[1..], u);
    }
  }

  /** After any run, tuntap_destroy removes exactly the interface the start opened, or
      none when the kernel refuses, and closes exactly the device's descriptors. */
  lemma DestroyHitsItsOwn(s: State, es: seq<Event>, u: Unit, ok: bool)
    requires s.k.Wf() && Owns(s.k, s.d, u) && Run(s, es, u)
    requires MayDestroy(Final(s, es, u).k, Final(s, es, u).d, ok)
    ensures var t := Final(s, es, u);
      var k' := KernelAfterRelease(KernelAfterSysDestroy(t.k, t.d, ok), t.d.(tunFd := -1));
      && u in t.k.ifs
      && k'.ifs == (if ok then t.k.ifs - {u} else t.k.ifs)
      && k'.files == t.k.files - {s.d.tunFd, s.d.ctrlSock}
      && {s.d.tunFd, s.d.ctrlSock} <= t.k.files.Keys && s.d.tunFd != s.d.ctrlSock
  {
    RunKeepsOwnership(s, es, u);
    var t := Final(s, es, u);
    var closed := t.k.Close(t.d.tunFd);
    assert closed.Wf();
    closed.FindIs(u);
  }

  /** Between its two steps tuntap_destroy may lose the processor, and the number of
      the descriptor closed early may be given away: the release leaves it alone. */
  lemma ClosedEarlyClosedOnce(k: Kernel, d: Dev, ok: bool, k1: Kernel, reused: File)
    requires k.Wf() && d.Started() && d.tunFd != d.ctrlSock && MayDestroy(k, d, ok)
    requires d.tunFd in k.files && KernelAfterSysDestroy(k, d, ok).Unused(d.tunFd)
    requires k1 == KernelAfterSysDestroy(k, d, ok).Open(d.tunFd, reused)
    ensures var k' := KernelAfterRelease(k1, d.(tunFd := -1));
      k'.files == (k.files - {d.ctrlSock})[d.tunFd := reused]
  {
  }

  /** The interface is gone from the kernel only if nobody else holds it open. */
  lemma RemovedMeansReleased(s: State, es: seq<Event>, u: Unit)
    requires s.k.Wf() && Owns(s.k, s.d, u) && Run(s, es, u)
    ensures var t := Final(s, es, u);
      MayDestroy(t.k, t.d, true) <==> forall fd | fd in t.k.files && t.k.files[fd] == Tun(u) :: fd == t.d.tunFd
  {
    RunKeepsOwnership(s, es, u);
    var t := Final(s, es, u);
    var closed := t.k.Close(t.d.tunFd);
    assert closed.Wf();
    closed.FindIs(u);
    forall fd | fd in t.k.files && t.k.files[fd] == Tun(u) && fd != t.d.tunFd
      ensures closed.Held(u)
    {
      assert fd in closed.files && closed.files[fd] == Tun(u);
    }
  }
}
