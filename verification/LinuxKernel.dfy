/** The part of a Linux kernel the library talks to: the descriptor table of the
    process and the interfaces, with every call allowed to fail. */
module LinuxKernel {
  import opened Common
  import opened IfRequest

  /** What a descriptor refers to; a tun descriptor may hold an interface. */
  datatype File = Foreign | Socket | Tun(link: Option<nat>)

  datatype Kind = Ordinary | TunKind | TapKind

  datatype Interface = Interface(name: Name, kind: Kind, flags: int16, mac: Mac, persist: bool)

  /** How TUNSETIFF came by an interface. */
  datatype Link = NoLink | New(iface: Interface) | Existing(id: nat)

  datatype Kernel = Kernel(files: map<int, File>, ifs: map<nat, Interface>, next: nat) {

    ghost predicate Wf() {
      && (forall fd | fd in files :: fd >= 0)
      && (forall id | id in ifs :: id < next)
      && (forall id, other | id in ifs && other in ifs && ifs[id].name == ifs[other].name :: id == other)
      && (forall fd | fd in files && files[fd].Tun? && files[fd].link.Some? :: files[fd].link.value in ifs)
      && (forall fd, other | fd in files && other in files && files[fd].Tun? && files[fd].link.Some?
                             && files[other] == files[fd] :: fd == other)
    }

    ghost predicate Unused(fd: int) {
      fd >= 0 && fd !in files
    }

    /** The descriptor socket(2) and open(2) must give. */
    ghost predicate Lowest(fd: int) {
      Unused(fd) && forall low | 0 <= low < fd :: low in files
    }

    ghost predicate IsSocket(fd: int) {
      fd in files && files[fd].Socket?
    }

    /** Descriptor `fd` holds interface `id`. */
    ghost predicate Holds(fd: int, id: nat) {
      fd in files && files[fd] == Tun(Some(id))
    }

    ghost predicate Held(id: nat) {
      exists fd :: Holds(fd, id)
    }

    ghost function Find(name: seq<byte>): (r: Option<nat>)
      ensures r.Some? ==> r.value in ifs && ifs[r.value].name == name
      ensures r.None? ==> forall id | id in ifs :: ifs[id].name != name
    {
      if id :| id in ifs && ifs[id].name == name then Some(id) else None
    }

    lemma FindIs(id: nat)
      requires Wf() && id in ifs
      ensures Find(ifs[id].name) == Some(id)
    {
    }

    function Open(fd: int, file: File): Kernel {
      this.(files := files[fd := file])
    }

    /** Closing the descriptor of an interface that is not persistent removes it. */
    function Close(fd: int): Kernel {
      if fd !in files then this
      else if files[fd].Tun? && files[fd].link.Some? && files[fd].link.value in ifs
              && !ifs[files[fd].link.value].persist
      then this.(files := files - {fd}, ifs := ifs - {files[fd].link.value})
      else this.(files := files - {fd})
    }

    function Update(id: nat, iface: Interface): Kernel {
      this.(ifs := ifs[id := iface])
    }

    // ---- TUNSETIFF -------------------------------------------------------------

    /** What TUNSETIFF may do for a request of kind `kind`; an empty name leaves the
        choice of a new interface to the kernel. */
    ghost predicate MayLink(kind: Kind, name: seq<byte>, link: Link) {
      match link
      case NoLink => false
      case New(i) => i.kind == kind && !i.persist && Find(i.name).None? && (name == [] || i.name == name)
      case Existing(id) => id in ifs && ifs[id].kind == kind && ifs[id].name == name && !Held(id)
    }

    /** TUNSETIFF has no reason to turn the request down. */
    ghost predicate Claimable(kind: Kind, name: seq<byte>) {
      kind != Ordinary &&
      (name == [] || Find(name).None? || (ifs[Find(name).value].kind == kind && !Held(Find(name).value)))
    }

    /** A tun descriptor with its interface */
    ghost predicate HoldsSome(fd: int) {
      fd in files && files[fd].Tun? && files[fd].link.Some? && files[fd].link.value in ifs
    }

    function LinkedId(link: Link): nat
      requires link != NoLink
    {
      if link.New? then next else link.id
    }

    /** `fd` becomes a tun descriptor with that link. */
    function Attach(fd: int, link: Link): Kernel {
      match link
      case NoLink => Open(fd, Tun(None))
      case New(i) => Kernel(files[fd := Tun(Some(next))], ifs[next := i], next + 1)
      case Existing(id) => Open(fd, Tun(Some(id)))
    }

    function Persist(id: nat, bit: bool): Kernel
      requires id in ifs
    {
      Update(id, ifs[id].(persist := bit))
    }

    // ---- What keeps a kernel well formed -----------------------------------------

    lemma OpenWf(fd: int, file: File)
      requires Wf() && Unused(fd) && (file.Tun? ==> file.link.None?)
      ensures Open(fd, file).Wf()
    {
    }

    lemma CloseWf(fd: int)
      requires Wf()
      ensures Close(fd).Wf()
    {
    }

    lemma AttachWf(fd: int, kind: Kind, name: seq<byte>, link: Link)
      requires Wf() && (Unused(fd) || (fd in files && files[fd] == Tun(None)))
      requires link.NoLink? || MayLink(kind, name, link)
      ensures Attach(fd, link).Wf()
    {
      var k := Attach(fd, link);
      if link.Existing? {
        forall other | other in files
          ensures !Holds(other, link.id)
        {
        }
      }
    }

    lemma UpdateWf(id: nat, iface: Interface)
      requires Wf() && id in ifs
      requires iface.name == ifs[id].name || Find(iface.name).None?
      ensures Update(id, iface).Wf()
    {
    }
  }

  const IFF_TUN: int16 := 1
  const IFF_TAP: int16 := 2
  const IFF_NO_PI: int16 := 0x1000

  const ARPHRD_ETHER: int16 := 1

  /** What TUNSETIFF makes of the flags: IFF_NO_PI with IFF_TUN, or with IFF_TAP. */
  function KindOf(flags: int16): Kind {
    if flags == 0x1001 then TunKind else if flags == 0x1002 then TapKind else Ordinary
  }

  /** Nothing follows the name in the name field. */
  predicate Padded(req: seq<byte>)
    requires |req| == REQUEST
  {
    req[..16] == Pad(NameOf(req), 16)
  }

  /** Writing a name over a padded field that held the same name, or none. */
  lemma PaddedStays(before: seq<byte>, after: seq<byte>, name: Name)
    requires |before| == |after| == REQUEST
    requires NameOf(before) == [] || NameOf(before) == name
    requires after[..|name|] == name && after[|name|] == 0 && after[|name| + 1..] == before[|name| + 1..]
    requires NameOf(after) == name
    ensures Padded(before) ==> Padded(after)
  {
    if Padded(before) {
      forall i | |name| < i < 16
        ensures after[i] == 0
      {
        assert after[i] == after[|name| + 1..][i - |name| - 1];
        assert before[i] == before[|name| + 1..][i - |name| - 1];
        assert before[..16][i] == 0;
      }
    }
  }

  /** The kernel as the process sees it: each method is one system call. */
  class Host {
    var k: Kernel
    ghost var faults: nat // calls that failed so far although nothing in the model was in their way

    constructor (files: map<int, File>, ifs: map<nat, Interface>, next: nat)
      ensures k == Kernel(files, ifs, next) && faults == 0
    {
      k := Kernel(files, ifs, next);
      faults := 0;
    }

    /** socket(2) and open(2) of the clone device */
    method OpenFile(file: File) returns (fd: int)
      modifies this
      ensures faults == old(faults) + if fd == -1 then 1 else 0
      ensures fd == -1 ==> k == old(k)
      ensures fd != -1 ==> old(k).Lowest(fd) && k == old(k).Open(fd, file)
    {
      var fails: bool := *;
      if fails {
        faults := faults + 1;
        return -1;
      }
      fd := LowestFree(k.files.Keys);
      k := k.Open(fd, file);
    }

    method Close(fd: int)
      modifies this`k
      ensures k == old(k).Close(fd)
    {
      k := k.Close(fd);
    }

    method TunSetIff(fd: int, req: array<byte>) returns (r: int, ghost link: Link)
      requires req.Length == REQUEST
      requires k.Wf()
      modifies this, req
      ensures faults >= old(faults)
      ensures r == -1 ==> k == old(k) && link == NoLink && req[..] == old(req[..])
      ensures r == -1 ==>
        || faults > old(faults) || !(fd in k.files && k.files[fd] == Tun(None))
        || !k.Claimable(KindOf(old(ShortOf(req[..]))), old(NameOf(req[..])))
      ensures r != -1 ==>
        && r == 0
        && fd in old(k).files && old(k).files[fd] == Tun(None)
        && old(k).MayLink(KindOf(old(ShortOf(req[..]))), old(NameOf(req[..])), link)
        && k == old(k).Attach(fd, link)
        && k.Find(NameOf(req[..])) == Some(old(k).LinkedId(link))
        && (old(Padded(req[..])) ==> Padded(req[..]))
    {
      var fails: bool := *;
      link := NoLink;
      var kind, name := KindOf(ShortOf(req[..])), NameOf(req[..]);
      if fails {
        faults := faults + 1;
        return -1, NoLink;
      }
      if fd !in k.files || k.files[fd] != Tun(None) || kind == Ordinary {
        return -1, NoLink;
      }
      if id :| id in k.ifs && k.ifs[id].name == name {
        k.FindIs(id);
        var held := exists f | f in k.files :: k.files[f] == Tun(Some(id));
        assert held <==> k.Held(id) by {
          assert forall f | f in k.files && k.files[f] == Tun(Some(id)) :: k.Holds(f, id);
        }
        if k.ifs[id].kind != kind || held {
          return -1, NoLink;
        }
        link := Existing(id);
        k.AttachWf(fd, kind, name, link);
        k := k.Open(fd, Tun(Some(id)));
        k.FindIs(id);
        return 0, link;
      }
      r, link := NewInterface(fd, kind, name, req);
    }

    /** TUNSETIFF when no interface has the name; without one the kernel chooses. */
    method NewInterface(fd: int, kind: Kind, name: seq<byte>, req: array<byte>) returns (r: int, ghost link: Link)
      requires req.Length == REQUEST && name == NameOf(req[..])
      requires k.Wf() && fd in k.files && k.files[fd] == Tun(None)
      modifies this, req
      ensures faults == old(faults) + if r == -1 then 1 else 0
      ensures r == -1 ==> k == old(k) && link == NoLink && req[..] == old(req[..])
      ensures r != -1 ==>
        && r == 0
        && link.New? && old(k).MayLink(kind, name, link)
        && k == old(k).Attach(fd, link)
        && k.Find(NameOf(req[..])) == Some(old(k).LinkedId(link))
        && (old(Padded(req[..])) ==> Padded(req[..]))
    {
      hide Kernel.Wf;
      var chosen: Name, flags: int16, mac: Mac := *, *, *;
      if name != [] {
        chosen := name;
      }
      var taken := set i | i in k.ifs && k.ifs[i].name == chosen;
      if taken != {} {
        faults := faults + 1;
        return -1, NoLink;
      }
      assert k.Find(chosen).None? by {
        assert forall i | i in k.ifs :: i !in taken;
      }
      var iface := Interface(chosen, kind, flags, mac, false);
      link := New(iface);
      k.AttachWf(fd, kind, name, link);
      var id := k.next;
      k := Kernel(k.files[fd := Tun(Some(id))], k.ifs[id := iface], id + 1);
      k.FindIs(id);
      PutName(req, chosen);
      PaddedStays(old(req[..]), req[..], chosen);
      r := 0;
    }

    method TunSetPersist(fd: int, bit: bool) returns (r: int)
      modifies this
      ensures faults >= old(faults)
      ensures r == -1 ==> k == old(k) && (faults > old(faults) || !k.HoldsSome(fd))
      ensures r != -1 ==> r == 0 && old(k).HoldsSome(fd) && k == old(k).Persist(old(k).files[fd].link.value, bit)
    {
      var fails: bool := *;
      if fails {
        faults := faults + 1;
        return -1;
      }
      if fd !in k.files || !k.files[fd].Tun? || k.files[fd].link.None? || k.files[fd].link.value !in k.ifs {
        return -1;
      }
      k := k.Persist(k.files[fd].link.value, bit);
      r := 0;
    }

    /** SIOCGIFFLAGS */
    method GetFlags(sock: int, req: array<byte>) returns (r: int)
      requires req.Length == REQUEST
      modifies req, this`faults
      ensures faults >= old(faults)
      ensures NameOf(req[..]) == old(NameOf(req[..])) && req[..16] == old(req[..16])
      ensures r == -1 ==> faults > old(faults) || !k.IsSocket(sock) || k.Find(NameOf(req[..])).None?
      ensures r == -1 || r == 0
      ensures r == 0 ==> k.IsSocket(sock) && k.Find(NameOf(req[..])).Some?
      ensures r == 0 && k.Wf() ==> ShortOf(req[..]) == k.ifs[k.Find(NameOf(req[..])).value].flags
    {
      var fails: bool := *;
      var name := NameOf(req[..]);
      r := -1;
      if fails {
        faults := faults + 1;
        return;
      }
      if sock !in k.files || !k.files[sock].Socket? {
        return;
      }
      if id :| id in k.ifs && k.ifs[id].name == name {
        PutShort(req, k.ifs[id].flags);
        r := 0;
      }
    }

    /** SIOCSIFFLAGS */
    method SetFlags(sock: int, req: array<byte>) returns (r: int)
      requires req.Length == REQUEST && k.Wf()
      modifies this
      ensures faults >= old(faults)
      ensures r == -1 ==> k == old(k)
      ensures r == -1 ==> faults > old(faults) || !k.IsSocket(sock) || k.Find(NameOf(req[..])).None?
      ensures r != -1 ==>
        && r == 0
        && old(k).IsSocket(sock) && old(k).Find(NameOf(req[..])).Some?
        && k == SetFlagsOf(old(k), NameOf(req[..]), ShortOf(req[..]))
    {
      var fails: bool := *;
      r := -1;
      if fails {
        faults := faults + 1;
        return;
      }
      if sock !in k.files || !k.files[sock].Socket? {
        return;
      }
      if id :| id in k.ifs && k.ifs[id].name == NameOf(req[..]) {
        k := k.Update(id, k.ifs[id].(flags := ShortOf(req[..])));
        r := 0;
      }
    }

    /** SIOCSIFHWADDR; the address family must be that of the link. */
    method SetMac(sock: int, req: array<byte>) returns (r: int)
      requires req.Length == REQUEST && k.Wf()
      modifies this
      ensures faults >= old(faults)
      ensures r == -1 ==> k == old(k)
      ensures r == -1 ==>
        faults > old(faults) || !k.IsSocket(sock) || k.Find(NameOf(req[..])).None? || ShortOf(req[..]) != 1
      ensures r != -1 ==>
        && r == 0
        && old(k).IsSocket(sock) && old(k).Find(NameOf(req[..])).Some?
        && k == SetMacOf(old(k), NameOf(req[..]), MacOf(req[..]))
    {
      var fails: bool := *;
      r := -1;
      if fails {
        faults := faults + 1;
        return;
      }
      if sock !in k.files || !k.files[sock].Socket? || ShortOf(req[..]) != 1 {
        return;
      }
      if id :| id in k.ifs && k.ifs[id].name == NameOf(req[..]) {
        k := k.Update(id, k.ifs[id].(mac := MacOf(req[..])));
        r := 0;
      }
    }

    /** SIOCSIFNAME */
    method Rename(sock: int, req: array<byte>) returns (r: int)
      requires req.Length == REQUEST && k.Wf()
      modifies this
      ensures faults >= old(faults)
      ensures r == -1 ==> k == old(k)
      ensures r == -1 ==>
        faults > old(faults) || !k.IsSocket(sock) || !MayRename(k, NameOf(req[..]), NewNameOf(req[..]))
      ensures r != -1 ==>
        && r == 0
        && old(k).IsSocket(sock) && MayRename(old(k), NameOf(req[..]), NewNameOf(req[..]))
        && k == RenameOf(old(k), NameOf(req[..]), NewNameOf(req[..]))
    {
      var fails: bool := *;
      var name := NewNameOf(req[..]);
      r := -1;
      if fails {
        faults := faults + 1;
        return;
      }
      if sock !in k.files || !k.files[sock].Socket? || name == [] {
        return;
      }
      if id :| id in k.ifs && k.ifs[id].name == NameOf(req[..]) {
        var taken := set i | i in k.ifs && i != id && k.ifs[i].name == name;
        if taken == {} {
          k.FindIs(id);
          assert forall i | i in k.ifs && i != id :: i !in taken;
          k := k.Update(id, k.ifs[id].(name := name));
          return 0;
        }
      }
    }

    /** SIOCGIFHWADDR on a tun descriptor */
    method GetMac(fd: int) returns (r: int, mac: Mac)
      modifies this`faults
      ensures faults >= old(faults)
      ensures r == -1 || r == 0
      ensures r == -1 ==> faults > old(faults) || !k.HoldsSome(fd)
      ensures r == 0 ==> k.HoldsSome(fd) && mac == k.ifs[k.files[fd].link.value].mac
    {
      var fails: bool := *;
      mac := Zeros(6);
      r := -1;
      if fails {
        faults := faults + 1;
        return;
      }
      if fd !in k.files || !k.files[fd].Tun? || k.files[fd].link.None? || k.files[fd].link.value !in k.ifs {
        return;
      }
      mac := k.ifs[k.files[fd].link.value].mac;
      r := 0;
    }
  }

  // ---- What a successful request does, by name -----------------------------------

  ghost function SetFlagsOf(k: Kernel, name: seq<byte>, flags: int16): Kernel
    requires k.Find(name).Some?
  {
    var id := k.Find(name).value;
    k.Update(id, k.ifs[id].(flags := flags))
  }

  ghost function SetMacOf(k: Kernel, name: seq<byte>, mac: Mac): Kernel
    requires k.Find(name).Some?
  {
    var id := k.Find(name).value;
    k.Update(id, k.ifs[id].(mac := mac))
  }

  /** The new name is not empty and no other interface has it. */
  ghost predicate MayRename(k: Kernel, name: seq<byte>, newName: seq<byte>) {
    && k.Find(name).Some?
    && 0 < |newName| <= 15 && 0 !in newName
    && (k.Find(newName).None? || newName == name)
  }

  ghost function RenameOf(k: Kernel, name: seq<byte>, newName: seq<byte>): Kernel
    requires MayRename(k, name, newName)
  {
    var id := k.Find(name).value;
    k.Update(id, k.ifs[id].(name := newName))
  }
}
