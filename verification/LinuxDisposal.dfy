/** Disposal of a device that is not started: when it is safe, what a caller can do to
    be sure of it, and runs in which something goes wrong. */
module LinuxDisposal {
  import opened Common
  import opened IfRequest
  import opened DeviceState
  import opened LinuxKernel
  import opened LinuxDevice
  import opened LinuxRuns
  import opened LinuxTheorems

  /** tuntap_release closes the device's own descriptors and nothing else exactly when
      the device is started, or the number of its lost socket is not in use again. */
  lemma ReleaseIsSafeExactlyWhen(k: Kernel, d: Dev)
    requires k.Wf() && DevOk(k, d)
    ensures KernelAfterRelease(k, d).files == k.files - OwnedBy(d) <==> d.Started() || d.ctrlSock !in k.files
  {
    if !d.Started() && d.ctrlSock in k.files {
      assert d.ctrlSock in k.files - OwnedBy(d);
    }
  }

  lemma DestroyIsSafeExactlyWhen(k: Kernel, d: Dev, cleared: bool)
    requires k.Wf() && DevOk(k, d) && MayDestroy(k, d, cleared)
    ensures KernelAfterDestroy(k, d, cleared).files == k.files - OwnedBy(d)
            <==> d.Started() || d.ctrlSock !in k.files
  {
    ClearWf(k, d, cleared);
    if !d.Started() && d.ctrlSock in k.files {
      assert d.ctrlSock in k.files - OwnedBy(d);
    }
  }

  // ---- What a caller can go by ---------------------------------------------------------

  /** A start that got its control socket, and failed. */
  predicate LosesSocket(e: Event) {
    e.Start? && (e.out.SockOnly? || e.out.TunLeft?)
  }

  /** The call leaves descriptors open that were not open before. */
  predicate AddsDescriptors(e: Event) {
    e.AppOpen? || (e.Start? && (e.out.TunLeft? || e.out.Up?))
  }

  predicate Disposes(e: Event) {
    e.Release? || e.Destroy?
  }

  /** The devices whose last start lost its socket. */
  function LostAfter(e: Event, lost: set<nat>): set<nat> {
    if LosesSocket(e) then lost + {e.dv}
    else if Disposes(e) || (e.Start? && e.out.Up?) then lost - {e.dv}
    else lost
  }

  /** Those of them that have seen a descriptor being opened since. */
  function RiskyAfter(e: Event, lost: set<nat>, risky: set<nat>): set<nat> {
    var now := if AddsDescriptors(e) then risky + lost else risky;
    if Disposes(e) || (e.Start? && !e.out.Refused?) then now - {e.dv} else now
  }

  /** No device is disposed of while it is risky. A caller can follow this from its own
      calls and their answers. */
  predicate Prudent(es: seq<Event>, lost: set<nat>, risky: set<nat>)
    decreases |es|
  {
    es != [] ==>
      && (Disposes(es[0]) ==> es[0].dv !in risky)
      && Prudent(es[1..], LostAfter(es[0], lost), RiskyAfter(es[0], lost, risky))
  }

  /** What the caller's two sets mean for the state. */
  predicate Informed(s: Sys, lost: set<nat>, risky: set<nat>) {
    forall dv | dv in s.devs && !s.devs[dv].Started() && dv !in risky ::
      && s.devs[dv].ctrlSock !in s.k.files
      && (dv !in lost ==> s.devs[dv].ctrlSock == -1)
  }

  lemma DisposalStaysInformed(s: Sys, e: Event, lost: set<nat>, risky: set<nat>)
    requires Inv(s) && Informed(s, lost, risky) && Enabled(s, e) && Disposes(e) && e.dv !in risky
    ensures Orderly(s, e) && Informed(Apply(s, e), LostAfter(e, lost), RiskyAfter(e, lost, risky))
  {
    var d := s.devs[e.dv];
    assert DevOk(s.k, d);
    DisposalFiles(s.k, d, e.Destroy? && e.cleared);
  }

  lemma StartStaysInformed(s: Sys, e: Event, lost: set<nat>, risky: set<nat>)
    requires Inv(s) && Informed(s, lost, risky) && Enabled(s, e) && e.Start?
    ensures Informed(Apply(s, e), LostAfter(e, lost), RiskyAfter(e, lost, risky))
  {
    StartFiles(s.k, s.devs[e.dv], e.mode, e.tun, e.out);
    assert forall dv | dv in s.devs && s.devs[dv].ctrlSock == -1 :: -1 !in Added(e.out);
  }

  lemma OtherStaysInformed(s: Sys, e: Event, lost: set<nat>, risky: set<nat>)
    requires Inv(s) && Informed(s, lost, risky) && Enabled(s, e) && !Disposes(e) && !e.Start?
    ensures Informed(Apply(s, e), LostAfter(e, lost), RiskyAfter(e, lost, risky))
  {
  }

  /** A caller that disposes of no risky device closes only what it owns. */
  lemma {:induction false} PrudentIsOrderly(s: Sys, es: seq<Event>, lost: set<nat>, risky: set<nat>)
    requires Inv(s) && Informed(s, lost, risky) && Run(s, es) && Prudent(es, lost, risky)
    ensures OrderlyRun(s, es)
    decreases |es|
  {
    if es != [] {
      var e := es[0];
      if Disposes(e) {
        DisposalStaysInformed(s, e, lost, risky);
      } else if e.Start? {
        StartStaysInformed(s, e, lost, risky);
      } else {
        OtherStaysInformed(s, e, lost, risky);
      }
      StepKeepsInv(s, e);
      PrudentIsOrderly(Apply(s, e), es[1..], LostAfter(e, lost), RiskyAfter(e, lost, risky));
    }
  }

  lemma InitialIsInformed(s: Sys)
    requires Initial(s)
    ensures Inv(s) && Informed(s, {}, {})
  {
    InitialIsInv(s);
  }

  /** Every start that loses its socket is followed at once by the disposal of its device. */
  predicate Prompt(es: seq<Event>) {
    forall i | 0 <= i < |es| - 1 && LosesSocket(es[i]) :: Disposes(es[i + 1]) && es[i + 1].dv == es[i].dv
  }

  lemma {:induction false} PromptIsPrudent(es: seq<Event>)
    requires Prompt(es)
    ensures Prudent(es, {}, {})
    decreases |es|
  {
    if es != [] {
      if LosesSocket(es[0]) && |es| == 1 {
      } else if LosesSocket(es[0]) {
        var rest := es[1..];
        assert Disposes(rest[0]) && rest[0].dv == es[0].dv;
        var dv := es[0].dv;
        assert LostAfter(es[0], {}) == {dv} && RiskyAfter(es[0], {}, {}) == {};
        assert LostAfter(rest[0], {dv}) == {} && RiskyAfter(rest[0], {dv}, {}) == {};
        TailIsPrompt(es);
        TailIsPrompt(rest);
        PromptIsPrudent(rest[1..]);
      } else {
        assert LostAfter(es[0], {}) == {} && RiskyAfter(es[0], {}, {}) == {};
        TailIsPrompt(es);
        PromptIsPrudent(es[1..]);
      }
    }
  }

  lemma TailIsPrompt(es: seq<Event>)
    requires es != [] && Prompt(es)
    ensures Prompt(es[1..])
  {
    forall i | 0 <= i < |es[1..]| - 1 && LosesSocket(es[1..][i])
      ensures Disposes(es[1..][i + 1]) && es[1..][i + 1].dv == es[1..][i].dv
    {
      assert LosesSocket(es[i + 1]);
    }
  }

  /** A caller that disposes of a device as soon as its start fails, as the C++ constructor
      does, is safe throughout; only the starts that lose their socket matter. */
  lemma PromptIsOrderly(s: Sys, es: seq<Event>)
    requires Initial(s) && Run(s, es) && Prompt(es)
    ensures OrderlyRun(s, es)
  {
    InitialIsInformed(s);
    PromptIsPrudent(es);
    PrudentIsOrderly(s, es, {}, {});
  }

  /** So is one none of whose starts fails after getting its socket. */
  lemma NoLostSocketIsOrderly(s: Sys, es: seq<Event>)
    requires Initial(s) && Run(s, es) && forall i | 0 <= i < |es| :: !LosesSocket(es[i])
    ensures OrderlyRun(s, es)
  {
    PromptIsOrderly(s, es);
  }

  /** Prudence asks for no more than it must: in any state, one descriptor opened after a
      socket was lost can make disposing of that device close it. */
  lemma OneOpeningIsEnough(s: Sys, dv: nat)
    requires Inv(s) && dv in s.devs && !s.devs[dv].Started()
    requires s.devs[dv].ctrlSock >= 0 && s.devs[dv].ctrlSock !in s.k.files
    ensures var e := AppOpen(s.devs[dv].ctrlSock);
      && Enabled(s, e) && Inv(Apply(s, e)) && !Orderly(Apply(s, e), Release(dv))
      && e.fd in Apply(s, e).k.files && e.fd !in Apply(Apply(s, e), Release(dv)).k.files
  {
    StepKeepsInv(s, AppOpen(s.devs[dv].ctrlSock));
  }

  // ---- Runs in which something goes wrong -------------------------------------------------

  lemma AfterStep(s: Sys, e: Event, t: Sys, es: seq<Event>)
    requires Enabled(s, e) && Apply(s, e) == t && Run(t, es)
    ensures Run(s, [e] + es) && Final(s, [e] + es) == Final(t, es)
    ensures OrderlyRun(s, [e] + es) <==> Orderly(s, e) && OrderlyRun(t, es)
  {
    assert ([e] + es)[1..] == es;
  }

  const TUN0: Name := [0x74, 0x75, 0x6e, 0x30]
  const TUN0_INTERFACE := Interface(TUN0, TunKind, 0, Zeros(6), false)

  /** Standard input, output and error are open. */
  const START := Sys(Kernel(map[0 := Foreign, 1 := Foreign, 2 := Foreign], map[], 0), map[], {})

  /** Device 0 asks for a persistent interface with TUNTAP_ID_ANY, which is always
      turned down after the socket was opened. Device 1 starts and gets that number.
      Device 0 is released. */
  const TURNED_DOWN := Start(0, MODE_TUNNEL + 4, ID_ANY, SockOnly(3))
  const GETS_NUMBER := Start(1, MODE_TUNNEL, 0, Outcome.Up(3, 4, New(TUN0_INTERFACE), false))
  const STALE_RUN := [Init(0), Init(1), TURNED_DOWN, GETS_NUMBER, Release(0)]

  const LOST := FreshDev.(ctrlSock := 3)
  const STARTED := Dev(4, 3, 0, Zeros(6), Pad(TUN0, 16) + [0])
  const TWO_FRESH := START.(devs := map[0 := FreshDev, 1 := FreshDev])
  const ONE_LOST := START.(devs := map[0 := LOST, 1 := FreshDev])
  const ONE_STARTED := Sys(
    Kernel(map[0 := Foreign, 1 := Foreign, 2 := Foreign, 3 := Socket, 4 := Tun(Some(0))], map[0 := TUN0_INTERFACE], 1),
    map[0 := LOST, 1 := STARTED], {})
  const SOCKET_GONE := Sys(
    Kernel(map[0 := Foreign, 1 := Foreign, 2 := Foreign, 4 := Tun(Some(0))], map[0 := TUN0_INTERFACE], 1),
    map[1 := STARTED], {})

  lemma TurnedDownStep()
    ensures Enabled(TWO_FRESH, TURNED_DOWN) && Apply(TWO_FRESH, TURNED_DOWN) == ONE_LOST
    ensures Numbered(TWO_FRESH.k, TURNED_DOWN.out)
    ensures Reason(TWO_FRESH.k, FreshDev, TURNED_DOWN.mode, TURNED_DOWN.tun, TURNED_DOWN.out)
  {
    assert ONE_LOST.devs == TWO_FRESH.devs[0 := LOST];
  }

  lemma GetsNumberStep()
    ensures Enabled(ONE_LOST, GETS_NUMBER) && Apply(ONE_LOST, GETS_NUMBER) == ONE_STARTED
    ensures Numbered(ONE_LOST.k, GETS_NUMBER.out)
  {
    assert TUN0 == WantedName(MODE_TUNNEL, 0) by {
      assert Signed(0) == [0x30];
    }
    assert ONE_LOST.k.Find(TUN0).None?;
    assert ONE_STARTED.devs == ONE_LOST.devs[1 := STARTED];
    assert ONE_STARTED.k.files == ONE_LOST.k.files[4 := Tun(Some(0))][3 := Socket];
  }

  lemma ReleaseStep()
    ensures Enabled(ONE_STARTED, Release(0)) && Apply(ONE_STARTED, Release(0)) == SOCKET_GONE
    ensures !Orderly(ONE_STARTED, Release(0))
  {
    assert SOCKET_GONE.k.files == ONE_STARTED.k.files - {3};
    assert SOCKET_GONE.devs == ONE_STARTED.devs - {0};
  }

  /** Releasing device 0 closes the control socket of device 1, although no system call
      failed and every number was the lowest free. */
  lemma StaleSocketRun()
    ensures Initial(START) && Run(START, STALE_RUN) && Final(START, STALE_RUN) == SOCKET_GONE
    ensures SOCKET_GONE.devs[1].Started() && SOCKET_GONE.devs[1].ctrlSock !in SOCKET_GONE.k.files
    ensures !OrderlyRun(START, STALE_RUN)
    ensures Numbered(TWO_FRESH.k, TURNED_DOWN.out) && Numbered(ONE_LOST.k, GETS_NUMBER.out)
  {
    TurnedDownStep();
    GetsNumberStep();
    ReleaseStep();
    hide Enabled, Orderly;
    var one := START.(devs := map[0 := FreshDev]);
    FreshStep(START, 0, one);
    FreshStep(one, 1, TWO_FRESH);
    AfterStep(ONE_STARTED, Release(0), SOCKET_GONE, []);
    AfterStep(ONE_LOST, GETS_NUMBER, ONE_STARTED, [Release(0)] + []);
    AfterStep(TWO_FRESH, TURNED_DOWN, ONE_LOST, [GETS_NUMBER] + ([Release(0)] + []));
    AfterStep(one, Init(1), TWO_FRESH, [TURNED_DOWN] + ([GETS_NUMBER] + ([Release(0)] + [])));
    AfterStep(START, Init(0), one, [Init(1)] + ([TURNED_DOWN] + ([GETS_NUMBER] + ([Release(0)] + []))));
    assert STALE_RUN == [Init(0)] + ([Init(1)] + ([TURNED_DOWN] + ([GETS_NUMBER] + ([Release(0)] + []))));
  }

  lemma FreshStep(s: Sys, dv: nat, t: Sys)
    requires dv !in s.devs && t == s.(devs := s.devs[dv := FreshDev])
    ensures Enabled(s, Init(dv)) && Apply(s, Init(dv)) == t
  {
  }

  // ---- A start that leaks although no system call fails -----------------------------------

  /** The descriptors 0 to 255 are open. */
  const CROWDED := Sys(Kernel(map fd | 0 <= fd <= 255 :: Foreign, map[], 0), map[], {})
  const LEAKS := Start(0, MODE_TUNNEL, 0, TunLeft(256, 257, NoLink, false))
  const LEAKING_RUN := [Init(0), LEAKS, Release(0)]

  /** A start for unit 0 fails because of its descriptor's number, 257. The device is
      released at once, and the descriptor stays open for good. */
  lemma LeakingRun()
    ensures Initial(CROWDED) && Crowded(CROWDED.k) && Usable(FreshDev, LEAKS.mode, LEAKS.tun)
    ensures Run(CROWDED, LEAKING_RUN) && OrderlyRun(CROWDED, LEAKING_RUN)
    ensures Numbered(CROWDED.k, LEAKS.out) && Reason(CROWDED.k, FreshDev, LEAKS.mode, LEAKS.tun, LEAKS.out)
    ensures var t := Final(CROWDED, LEAKING_RUN);
      t.devs == map[] && t.k.files == CROWDED.k.files[257 := Tun(None)] && t.leaked == {257}
  {
    var made := CROWDED.(devs := map[0 := FreshDev]);
    var k' := CROWDED.k.Open(257, Tun(None));
    var leaked := Sys(k', map[0 := FreshDev.(ctrlSock := 256)], {257});
    var gone := Sys(k', map[], {257});
    FreshStep(CROWDED, 0, made);
    assert Apply(made, LEAKS) == leaked by {
      assert leaked.devs == made.devs[0 := FreshDev.(ctrlSock := 256)];
      assert leaked.leaked == {} + {257};
    }
    assert Apply(leaked, Release(0)) == gone by {
      assert leaked.devs - {0} == map[];
    }
    AfterStep(leaked, Release(0), gone, []);
    AfterStep(made, LEAKS, leaked, [Release(0)] + []);
    AfterStep(CROWDED, Init(0), made, [LEAKS] + ([Release(0)] + []));
    assert LEAKING_RUN == [Init(0)] + ([LEAKS] + ([Release(0)] + []));
  }

  /** Two devices ask for tun0. The second start is turned down, and its descriptor 6
      stays open, although every descriptor but six is free. */
  const FIRST_UP := Start(0, MODE_TUNNEL, 0, Outcome.Up(3, 4, New(TUN0_INTERFACE), false))
  const BUSY := Start(1, MODE_TUNNEL, 0, TunLeft(5, 6, NoLink, false))
  const BUSY_RUN := [Init(0), Init(1), FIRST_UP, BUSY, Release(1), Release(0)]

  const ONE_FRESH := START.(devs := map[0 := FreshDev])
  const ONE_UP := Sys(
    Kernel(map[0 := Foreign, 1 := Foreign, 2 := Foreign, 3 := Socket, 4 := Tun(Some(0))], map[0 := TUN0_INTERFACE], 1),
    map[0 := STARTED, 1 := FreshDev], {})
  const ONE_BUSY := Sys(ONE_UP.k.Open(6, Tun(None)), map[0 := STARTED, 1 := FreshDev.(ctrlSock := 5)], {6})
  const ONE_GONE := ONE_BUSY.(devs := map[0 := STARTED])
  const ALL_GONE := Sys(
    Kernel(map[0 := Foreign, 1 := Foreign, 2 := Foreign, 6 := Tun(None)], map[], 1), map[], {6})

  /** `e` leads from `s` to `t`, without closing what is not the device's. */
  ghost predicate Step(s: Sys, e: Event, t: Sys) {
    Enabled(s, e) && Apply(s, e) == t && Orderly(s, e)
  }

  lemma FirstUpStep()
    ensures Step(TWO_FRESH, FIRST_UP, ONE_UP) && Numbered(TWO_FRESH.k, FIRST_UP.out)
  {
    assert TUN0 == WantedName(MODE_TUNNEL, 0) by {
      assert Signed(0) == [0x30];
    }
    assert TWO_FRESH.k.Find(TUN0).None?;
    assert ONE_UP.devs == TWO_FRESH.devs[0 := STARTED];
    assert ONE_UP.k.files == TWO_FRESH.k.files[4 := Tun(Some(0))][3 := Socket];
  }

  lemma BusyStep()
    ensures Step(ONE_UP, BUSY, ONE_BUSY)
    ensures Numbered(ONE_UP.k, BUSY.out) && Reason(ONE_UP.k, FreshDev, BUSY.mode, BUSY.tun, BUSY.out)
  {
    assert TUN0 == WantedName(MODE_TUNNEL, 0) by {
      assert Signed(0) == [0x30];
    }
    assert 0 in ONE_UP.k.ifs && ONE_UP.k.ifs[0].name == TUN0;
    assert ONE_UP.k.Holds(4, 0);
    assert ONE_BUSY.devs == ONE_UP.devs[1 := FreshDev.(ctrlSock := 5)];
    assert ONE_BUSY.leaked == {} + {6};
  }

  lemma FirstReleaseStep()
    ensures Step(ONE_BUSY, Release(1), ONE_GONE)
  {
    assert ONE_GONE.devs == ONE_BUSY.devs - {1};
  }

  lemma LastReleaseStep()
    ensures Step(ONE_GONE, Release(0), ALL_GONE)
  {
    assert ALL_GONE.devs == ONE_GONE.devs - {0};
    assert ALL_GONE.k.files == ONE_GONE.k.files - {4} - {3};
    assert ALL_GONE.k.ifs == ONE_GONE.k.ifs - {0};
  }

  lemma FreshSteps()
    ensures Step(START, Init(0), ONE_FRESH) && Step(ONE_FRESH, Init(1), TWO_FRESH)
  {
  }

  /** Both devices are released, and the descriptor is still there. */
  lemma BusyUnitRun()
    ensures Initial(START) && Run(START, BUSY_RUN) && OrderlyRun(START, BUSY_RUN) && Final(START, BUSY_RUN) == ALL_GONE
    ensures Numbered(ONE_UP.k, BUSY.out) && Reason(ONE_UP.k, FreshDev, BUSY.mode, BUSY.tun, BUSY.out)
    ensures ALL_GONE.devs == map[] && ALL_GONE.k.files == START.k.files[6 := Tun(None)]
  {
    hide Step, Numbered, Reason;
    FreshSteps();
    FirstUpStep();
    BusyStep();
    FirstReleaseStep();
    LastReleaseStep();
    SixSteps(START, Init(0), ONE_FRESH, Init(1), TWO_FRESH, FIRST_UP, ONE_UP, BUSY, ONE_BUSY,
             Release(1), ONE_GONE, Release(0), ALL_GONE);
  }

  lemma SixSteps(s: Sys, e: Event, s1: Sys, e1: Event, s2: Sys, e2: Event, s3: Sys, e3: Event, s4: Sys,
                 e4: Event, s5: Sys, e5: Event, s6: Sys)
    requires Step(s, e, s1) && Step(s1, e1, s2) && Step(s2, e2, s3)
    requires Step(s3, e3, s4) && Step(s4, e4, s5) && Step(s5, e5, s6)
    ensures var es := [e, e1, e2, e3, e4, e5];
      Run(s, es) && OrderlyRun(s, es) && Final(s, es) == s6
  {
    hide Enabled, Apply, Orderly;
    AfterStep(s5, e5, s6, []);
    AfterStep(s4, e4, s5, [e5] + []);
    AfterStep(s3, e3, s4, [e4] + ([e5] + []));
    AfterStep(s2, e2, s3, [e3] + ([e4] + ([e5] + [])));
    AfterStep(s1, e1, s2, [e2] + ([e3] + ([e4] + ([e5] + []))));
    AfterStep(s, e, s1, [e1] + ([e2] + ([e3] + ([e4] + ([e5] + [])))));
    assert [e, e1, e2, e3, e4, e5] == [e] + ([e1] + ([e2] + ([e3] + ([e4] + ([e5] + [])))));
  }
}
