/** bindings/cpp: the move-only wrapper, and who disposes of a device, and how. */
module CppOwnership {
  import opened Common
  import opened DeviceState

  /** tuntap_release or tuntap_destroy */
  datatype Disposal = Released | Destroyed

  datatype Result<+T> = Success(value: T) | Failure

  /** The unique pointer inside a wrapper: a device, and the choice its destroyer makes. */
  datatype Pointer = Pointer(dev: Option<nat>, persist: bool)

  const EMPTY := Pointer(None, false)

  /** What the destroyer of a wrapper made with `mode` does: bit 2 is TUNTAP_MODE_PERSIST. */
  function HowToDispose(mode: int): Disposal {
    if WantsPersist(mode) then Released else Destroyed
  }

  /** `(mode & TUNTAP_MODE_ETHERNET) == TUNTAP_MODE_ETHERNET`, and so on */
  predicate HasEthernet(mode: int) {
    mode % 2 == 1
  }

  predicate HasTunnel(mode: int) {
    mode / 2 % 2 == 1
  }

  predicate Accepted(mode: int, id: int) {
    HasEthernet(mode) != HasTunnel(mode) && 0 <= id <= ID_ANY
  }

  lemma LowBits(high: int, low: nat)
    requires low < 8
    ensures HasEthernet(8 * high + low) <==> low == 1 || low == 3 || low == 5 || low == 7
    ensures HasTunnel(8 * high + low) <==> low == 2 || low == 3 || low == 6 || low == 7
  {
    Parity(4 * high, low);
    Parity(2 * high, low / 2);
    assert (8 * high + low) / 2 == 4 * high + low / 2;
  }

  lemma Parity(half: int, rest: int)
    ensures (2 * half + rest) % 2 == rest % 2
  {
  }

  /** Which modes the constructor takes, whatever the bits above the third; tuntap_start
      is stricter. */
  lemma AcceptedModes(high: int, low: nat, id: int)
    requires low < 8
    ensures Accepted(8 * high + low, id) <==> (low == 1 || low == 2 || low == 5 || low == 6) && 0 <= id <= 257
  {
    LowBits(high, low);
    hide HasEthernet, HasTunnel;
  }

  // ---- The code ------------------------------------------------------------------------

  /** The C library as the wrapper uses it: devices are numbered as they are made. */
  class Library {
    var next: nat
    var log: seq<(nat, Disposal)>

    constructor ()
      ensures next == 0 && log == []
    {
      next, log := 0, [];
    }

    method Init() returns (dev: nat)
      modifies this`next
      ensures dev == old(next) && next == dev + 1
    {
      dev := next;
      next := next + 1;
    }

    method Dispose(dev: nat, how: Disposal)
      modifies this`log
      ensures log == old(log) + [(dev, how)]
    {
      log := log + [(dev, how)];
    }
  }

  class TunTap {
    var dev: Option<nat>
    var persist: bool

    function Ptr(): Pointer
      reads this
    {
      Pointer(dev, persist)
    }

    constructor Own(dev: nat, persist: bool)
      ensures Ptr() == Pointer(Some(dev), persist)
    {
      this.dev, this.persist := Some(dev), persist;
    }

    /** The constructor; `started` is what tuntap_start answers. When it throws, the
        member that already holds the device is destroyed. */
    static method Construct(lib: Library, mode: int, id: int, started: bool) returns (r: Result<TunTap>)
      modifies lib
      ensures lib.next == old(lib.next) + 1
      ensures r.Success? <==> Accepted(mode, id) && started
      ensures r.Success? ==>
        fresh(r.value) && r.value.Ptr() == Pointer(Some(old(lib.next)), WantsPersist(mode)) && lib.log == old(lib.log)
      ensures r.Failure? ==>
        lib.log == old(lib.log) + [(old(lib.next), if mode / 4 % 2 == 1 then Released else Destroyed)]
    {
      var dev := lib.Init();
      var t := new TunTap.Own(dev, WantsPersist(mode));
      if HasEthernet(mode) == HasTunnel(mode) || id < 0 || id > ID_ANY || !started {
        t.Destruct(lib);
        return Failure;
      }
      return Success(t);
    }

    /** The move constructor swaps with an empty pointer, destroyer included. */
    constructor Move(t: TunTap)
      modifies t
      ensures Ptr() == old(t.Ptr()) && t.Ptr() == EMPTY
    {
      dev, persist := None, false;
      new;
      dev, t.dev := t.dev, dev;
      persist, t.persist := t.persist, persist;
    }

    /** release(): the device is left to itself. */
    method Release()
      modifies this`dev
      ensures Ptr() == old(Ptr()).(dev := None)
    {
      dev := None;
    }

    /** The destructor: TunTapDestroyer on a pointer that is not null. */
    method Destruct(lib: Library)
      modifies lib`log
      ensures lib.log == old(lib.log) +
        (if !dev.Some? then [] else [(dev.value, if persist then Released else Destroyed)])
    {
      if dev.Some? {
        if persist {
          lib.Dispose(dev.value, Released);
        } else {
          lib.Dispose(dev.value, Destroyed);
        }
      }
    }
  }

  // ---- Any trace -------------------------------------------------------------------------

  /** `modes` and `dropped` record what each device was constructed with and what release()
      let go of; the program has no such variables. */
  datatype World = World(wrappers: map<nat, Pointer>, next: nat, log: seq<(nat, Disposal)>,
                         modes: seq<int>, dropped: set<nat>)

  datatype Event =
    | Construct(w: nat, mode: int, id: int, started: bool)
    | MoveInto(w: nat, from: nat)
    | Release(w: nat)
    | Destruct(w: nat)

  predicate Enabled(s: World, e: Event) {
    match e
    case Construct(w, _, _, _) => w !in s.wrappers
    case MoveInto(w, from) => w !in s.wrappers && from in s.wrappers
    case Release(w) => w in s.wrappers
    case Destruct(w) => w in s.wrappers
  }

  function Apply(s: World, e: Event): World
    requires Enabled(s, e)
  {
    match e
    case Construct(w, mode, id, started) =>
      var s' := s.(next := s.next + 1, modes := s.modes + [mode]);
      if Accepted(mode, id) && started
      then s'.(wrappers := s.wrappers[w := Pointer(Some(s.next), WantsPersist(mode))])
      else s'.(log := s.log + [(s.next, HowToDispose(mode))])
    case MoveInto(w, from) =>
      s.(wrappers := s.wrappers[w := s.wrappers[from]][from := EMPTY])
    case Release(w) =>
      var p := s.wrappers[w];
      s.(wrappers := s.wrappers[w := p.(dev := None)],
         dropped := if p.dev.Some? then s.dropped + {p.dev.value} else s.dropped)
    case Destruct(w) =>
      var p := s.wrappers[w];
      s.(wrappers := s.wrappers - {w},
         log := s.log + if p.dev.Some? then [(p.dev.value, if p.persist then Released else Destroyed)] else [])
  }

  predicate Run(s: World, es: seq<Event>)
    decreases |es|
  {
    es == [] || (Enabled(s, es[0]) && Run(Apply(s, es[0]), es[1..]))
  }

  function Final(s: World, es: seq<Event>): World
    requires Run(s, es)
    decreases |es|
  {
    if es == [] then s else Final(Apply(s, es[0]), es[1..])
  }

  const START := World(map[], 0, [], [], {})

  /** The modes of the constructor calls in a trace, in order. */
  function Modes(es: seq<Event>): seq<int> {
    if es == [] then [] else (if es[0].Construct? then [es[0].mode] else []) + Modes(es[1..])
  }

  /** How often a device was disposed of. */
  function Times(log: seq<(nat, Disposal)>, dev: nat): nat {
    if log == [] then 0 else Times(log[..|log| - 1], dev) + if log[|log| - 1].0 == dev then 1 else 0
  }

  /** The wrappers that hold a device. */
  function Owners(s: World, dev: nat): set<nat> {
    set w | w in s.wrappers && s.wrappers[w].dev == Some(dev)
  }

  /** The number of places a device is in: owned, disposed of, or dropped. */
  function Places(s: World, dev: nat): nat {
    |Owners(s, dev)| + Times(s.log, dev) + if dev in s.dropped then 1 else 0
  }

  ghost predicate Conserved(s: World) {
    forall dev: nat :: Places(s, dev) == if dev < s.next then 1 else 0
  }

  /** Whoever holds a device will do with it, and whoever had it did with it, what the
      mode it was constructed with demands. */
  ghost predicate Faithful(s: World) {
    && |s.modes| == s.next
    && (forall w | w in s.wrappers && s.wrappers[w].dev.Some? ::
          s.wrappers[w].dev.value < s.next && s.wrappers[w].persist == WantsPersist(s.modes[s.wrappers[w].dev.value]))
    && (forall i | 0 <= i < |s.log| ::
          s.log[i].0 < s.next && s.log[i].1 == HowToDispose(s.modes[s.log[i].0]))
  }

  lemma TimesAppend(log: seq<(nat, Disposal)>, entry: (nat, Disposal), dev: nat)
    ensures Times(log + [entry], dev) == Times(log, dev) + if entry.0 == dev then 1 else 0
    ensures Times(log + [], dev) == Times(log, dev)
  {
    assert (log + [entry])[..|log|] == log;
    assert log + [] == log;
  }

  lemma ConstructConserves(s: World, e: Event, dev: nat)
    requires Conserved(s) && Enabled(s, e) && e.Construct?
    ensures Places(Apply(s, e), dev) == if dev < Apply(s, e).next then 1 else 0
  {
    hide Owners, Times, Accepted;
    TimesAppend(s.log, (s.next, HowToDispose(e.mode)), dev);
    ConstructedOwners(s, e, dev);
    assert Places(s, dev) == if dev < s.next then 1 else 0;
  }

  lemma ConstructedOwners(s: World, e: Event, dev: nat)
    requires Enabled(s, e) && e.Construct?
    ensures e.w !in Owners(s, dev)
    ensures Owners(Apply(s, e), dev) ==
      if Accepted(e.mode, e.id) && e.started && dev == s.next then Owners(s, dev) + {e.w} else Owners(s, dev)
  {
    hide Accepted;
  }

  lemma MovedOwners(s: World, e: Event, dev: nat)
    requires Enabled(s, e) && e.MoveInto?
    ensures e.w !in Owners(s, dev)
    ensures Owners(Apply(s, e), dev) ==
      if e.from in Owners(s, dev) then Owners(s, dev) - {e.from} + {e.w} else Owners(s, dev)
  {
  }

  lemma MoveConserves(s: World, e: Event, dev: nat)
    requires Enabled(s, e) && e.MoveInto?
    ensures Places(Apply(s, e), dev) == Places(s, dev)
  {
    hide Owners, Times;
    MovedOwners(s, e, dev);
    if e.from in Owners(s, dev) {
      assert |Owners(s, dev) - {e.from}| == |Owners(s, dev)| - 1;
    }
  }

  lemma ReleaseConserves(s: World, e: Event, dev: nat)
    requires Conserved(s) && Enabled(s, e) && e.Release?
    ensures Places(Apply(s, e), dev) == Places(s, dev)
  {
    var s' := Apply(s, e);
    assert Places(s, dev) <= 1;
    assert Owners(s', dev) == Owners(s, dev) - {e.w};
  }

  lemma DestructConserves(s: World, e: Event, dev: nat)
    requires Enabled(s, e) && e.Destruct?
    ensures Places(Apply(s, e), dev) == Places(s, dev)
  {
    var s', p := Apply(s, e), s.wrappers[e.w];
    assert Owners(s', dev) == Owners(s, dev) - {e.w};
    TimesAppend(s.log, (if p.dev.Some? then p.dev.value else 0, if p.persist then Released else Destroyed), dev);
  }

  lemma StepConserves(s: World, e: Event)
    requires Conserved(s) && Faithful(s) && Enabled(s, e)
    ensures Conserved(Apply(s, e)) && Faithful(Apply(s, e))
  {
    forall dev: nat
      ensures Places(Apply(s, e), dev) == if dev < Apply(s, e).next then 1 else 0
    {
      match e
      case Construct(_, _, _, _) => ConstructConserves(s, e, dev);
      case MoveInto(_, _) => MoveConserves(s, e, dev);
      case Release(_) => ReleaseConserves(s, e, dev);
      case Destruct(_) => DestructConserves(s, e, dev);
    }
    StepIsFaithful(s, e);
  }

  lemma StepIsFaithful(s: World, e: Event)
    requires Faithful(s) && Enabled(s, e)
    ensures Faithful(Apply(s, e))
  {
  }

  lemma {:induction false} RunConserves(s: World, es: seq<Event>)
    requires Conserved(s) && Faithful(s) && Run(s, es)
    ensures Conserved(Final(s, es)) && Faithful(Final(s, es))
    ensures Final(s, es).modes == s.modes + Modes(es)
    decreases |es|
  {
    if es != [] {
      StepConserves(s, es[0]);
      RunConserves(Apply(s, es[0]), es[1..]);
      assert Apply(s, es[0]).modes == s.modes + if es[0].Construct? then [es[0].mode] else [];
    }
  }

  /** In any trace a device has at most one owner and is disposed of at most once; once
      no wrapper holds it, exactly once unless release() dropped it; and it is released if
      bit 2 of the mode of its own constructor call is set and destroyed otherwise,
      however often it was moved. */
  lemma Ownership(es: seq<Event>, dev: nat)
    requires Run(START, es)
    ensures var s := Final(START, es);
      && s.next == |Modes(es)| && |Owners(s, dev)| <= 1 && Times(s.log, dev) <= 1
      && (Times(s.log, dev) == 1 ==> Owners(s, dev) == {} && dev !in s.dropped)
      && (dev < s.next && Owners(s, dev) == {} && dev !in s.dropped ==> Times(s.log, dev) == 1)
      && (forall i | 0 <= i < |s.log| && s.log[i].0 == dev ::
            dev < |Modes(es)| && s.log[i].1 == if Modes(es)[dev] / 4 % 2 == 1 then Released else Destroyed)
  {
    var s := Final(START, es);
    RunConserves(START, es);
    assert s.modes == Modes(es);
    assert Places(s, dev) == if dev < s.next then 1 else 0;
  }

  /** When every wrapper is gone, every device was disposed of once or dropped. */
  lemma NothingIsForgotten(es: seq<Event>, dev: nat)
    requires Run(START, es) && Final(START, es).wrappers == map[]
    ensures var s := Final(START, es);
      dev < s.next ==> Times(s.log, dev) == if dev in s.dropped then 0 else 1
  {
    RunConserves(START, es);
    var s := Final(START, es);
    assert Owners(s, dev) == {};
    assert Places(s, dev) == if dev < s.next then 1 else 0;
  }

  // ---- The traces are those of the code --------------------------------------------------

  /** The library and the wrapper objects are the world `s`. */
  ghost predicate Shows(s: World, lib: Library, objs: map<nat, TunTap>)
    reads lib, objs.Values
  {
    && lib.next == s.next && lib.log == s.log
    && objs.Keys == s.wrappers.Keys
    && (forall w | w in objs :: objs[w].Ptr() == s.wrappers[w])
    && (forall w, v | w in objs && v in objs && w != v :: objs[w] != objs[v])
  }

  /** Whatever a program does with its wrappers is the event of that name. */
  method Perform(lib: Library, objs: map<nat, TunTap>, e: Event, ghost s: World) returns (objs': map<nat, TunTap>)
    requires Shows(s, lib, objs) && Enabled(s, e)
    modifies lib, objs.Values
    ensures Shows(Apply(s, e), lib, objs')
  {
    objs' := objs;
    if e.Construct? {
      var r := TunTap.Construct(lib, e.mode, e.id, e.started);
      if r.Success? {
        objs' := objs[e.w := r.value];
      }
    } else if e.MoveInto? {
      var t := new TunTap.Move(objs[e.from]);
      objs' := objs[e.w := t];
    } else if e.Release? {
      objs[e.w].Release();
    } else {
      objs[e.w].Destruct(lib);
      objs' := objs - {e.w};
    }
  }
}
