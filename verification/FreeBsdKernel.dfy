/** The part of a FreeBSD kernel the library talks to. An interface is a numbered
    unit of a driver, tun or tap; its name may be changed, its unit may not. */
module FreeBsdKernel {
  import opened Common
  import opened IfRequest
  import opened DeviceState
  import opened DriverNames

  datatype File = Foreign | Socket | Tun(unit: Unit)

  datatype Interface = Interface(name: Name, flags: int16, mac: Mac)

  datatype Error = Success | Exists | OtherError

  datatype Kernel = Kernel(files: map<int, File>, ifs: map<Unit, Interface>) {

    ghost predicate Wf() {
      && (forall fd | fd in files :: fd >= 0)
      && (forall u, other | u in ifs && other in ifs && ifs[u].name == ifs[other].name :: u == other)
      && (forall fd | fd in files && files[fd].Tun? :: files[fd].unit in ifs)
    }

    ghost predicate Unused(fd: int) {
      fd >= 0 && fd !in files
    }

    ghost predicate IsSocket(fd: int) {
      fd in files && files[fd].Socket?
    }

    ghost predicate Held(u: Unit) {
      exists fd :: fd in files && files[fd] == Tun(u)
    }

    ghost function Find(name: seq<byte>): (r: Option<Unit>)
      ensures r.Some? ==> r.value in ifs && ifs[r.value].name == name
      ensures r.None? ==> forall u | u in ifs :: ifs[u].name != name
    {
      if u :| u in ifs && ifs[u].name == name then Some(u) else None
    }

    lemma FindIs(u: Unit)
      requires Wf() && u in ifs
      ensures Find(ifs[u].name) == Some(u)
    {
    }

    function Open(fd: int, file: File): Kernel {
      this.(files := files[fd := file])
    }

    /** Closing a descriptor leaves its interface. */
    function Close(fd: int): Kernel {
      this.(files := files - {fd})
    }

    function Update(u: Unit, iface: Interface): Kernel {
      this.(ifs := ifs[u := iface])
    }

    function Remove(u: Unit): Kernel {
      this.(ifs := ifs - {u})
    }

    ghost predicate MayCreate(u: Unit, iface: Interface) {
      u !in ifs && Find(iface.name).None?
    }

    /** open(2) of the unit's node has no reason to fail. */
    ghost predicate MayOpen(u: Unit, node: seq<byte>) {
      !Held(u) && (u in ifs || (Find(node).None? && 0 < |node| <= 15))
    }

    ghost predicate MayRename(name: seq<byte>, newName: seq<byte>) {
      && Find(name).Some?
      && 0 < |newName| <= 15 && 0 !in newName
      && (Find(newName).None? || newName == name)
    }
  }

  class Host {
    var k: Kernel
    ghost var faults: nat // calls that failed so far although nothing in the model was in their way

    constructor (files: map<int, File>, ifs: map<Unit, Interface>)
      ensures k == Kernel(files, ifs) && faults == 0
    {
      k := Kernel(files, ifs);
      faults := 0;
    }

    method OpenSocket() returns (fd: int)
      modifies this
      ensures faults == old(faults) + if fd == -1 then 1 else 0
      ensures fd == -1 ==> k == old(k)
      ensures fd != -1 ==> old(k).Unused(fd) && k == old(k).Open(fd, Socket)
    {
      var fails: bool := *;
      if fails {
        faults := faults + 1;
        return -1;
      }
      fd := LowestFree(k.files.Keys);
      k := k.Open(fd, Socket);
    }

    method Close(fd: int)
      modifies this`k
      ensures k == old(k).Close(fd)
    {
      k := k.Close(fd);
    }

    /** SIOCIFCREATE2; EEXIST means the unit exists. */
    method Create(sock: int, req: array<byte>) returns (error: Error)
      requires req.Length == REQUEST && k.Wf()
      modifies this
      ensures k.Wf()
      ensures faults >= old(faults)
      ensures error == OtherError ==>
        || faults > old(faults) || !k.IsSocket(sock) || ParseUnit(NameOf(req[..])).None?
        || (ParseUnit(NameOf(req[..])).value !in k.ifs && k.Find(NameOf(req[..])).Some?)
      ensures error == Exists ==>
        var u := ParseUnit(NameOf(req[..])); u.Some? && u.value in k.ifs
      ensures error != Success ==> k == old(k)
      ensures error == Success ==>
        && ParseUnit(NameOf(req[..])).Some?
        && var u := ParseUnit(NameOf(req[..])).value;
           && u in k.ifs && k.ifs[u].name == NameOf(req[..])
           && old(k).MayCreate(u, k.ifs[u]) && k == old(k).Update(u, k.ifs[u])
    {
      var fails: bool := *;
      var name := NameOf(req[..]);
      var u := ParseUnit(name);
      if fails {
        faults := faults + 1;
        return OtherError;
      }
      if sock !in k.files || !k.files[sock].Socket? || u.None? {
        return OtherError;
      }
      if u.value in k.ifs {
        return Exists;
      }
      if exists other | other in k.ifs :: k.ifs[other].name == name {
        return OtherError;
      }
      var flags: int16, mac: Mac := *, *;
      k := k.Update(u.value, Interface(name, flags, mac));
      error := Success;
    }

    /** open(2) of a device node; opening a unit that does not exist may create it. */
    method OpenNode(node: seq<byte>) returns (fd: int)
      requires k.Wf() && 0 !in node
      modifies this
      ensures k.Wf()
      ensures faults >= old(faults)
      ensures fd == -1 ==> k == old(k)
      ensures fd == -1 ==>
        faults > old(faults) || ParseUnit(node).None? || !k.MayOpen(ParseUnit(node).value, node)
      ensures fd != -1 ==>
        && old(k).Unused(fd) && ParseUnit(node).Some?
        && var u := ParseUnit(node).value;
           && old(k).MayOpen(u, node) && u in k.ifs
           && (u in old(k).ifs || (old(k).MayCreate(u, k.ifs[u]) && k.ifs[u].name == node))
           && k == Kernel(old(k).files[fd := Tun(u)], old(k).ifs[u := k.ifs[u]])
           && (u in old(k).ifs ==> k.ifs == old(k).ifs)
    {
      var fails: bool := *;
      var parsed := ParseUnit(node);
      if fails {
        faults := faults + 1;
        return -1;
      }
      if parsed.None? {
        return -1;
      }
      var u := parsed.value;
      var held := exists f | f in k.files :: k.files[f] == Tun(u);
      var taken := exists other | other in k.ifs :: k.ifs[other].name == node;
      if held || (u !in k.ifs && (taken || !(0 < |node| <= 15))) {
        return -1;
      }
      if u !in k.ifs {
        var flags: int16, mac: Mac := *, *;
        k := k.Update(u, Interface(node, flags, mac));
      }
      fd := LowestFree(k.files.Keys);
      k := k.Open(fd, Tun(u));
    }

    /** TUNGIFNAME and TAPGIFNAME */
    method GetName(fd: int, req: array<byte>) returns (r: int)
      requires req.Length == REQUEST && k.Wf()
      modifies req, this`faults
      ensures faults >= old(faults)
      ensures r == -1 || r == 0
      ensures r == -1 ==> faults > old(faults) || !(fd in k.files && k.files[fd].Tun?)
      ensures r == 0 ==>
        && fd in k.files && k.files[fd].Tun?
        && NameOf(req[..]) == k.ifs[k.files[fd].unit].name
        && Text(req[..16]) == NameOf(req[..])
    {
      var fails: bool := *;
      if fails {
        faults := faults + 1;
        return -1;
      }
      if fd !in k.files || !k.files[fd].Tun? {
        return -1;
      }
      PutName(req, k.ifs[k.files[fd].unit].name);
      TextIs(req[..16], k.ifs[k.files[fd].unit].name);
      r := 0;
    }

    /** SIOCGIFFLAGS */
    method GetFlags(sock: int, req: array<byte>) returns (r: int)
      requires req.Length == REQUEST && k.Wf()
      modifies req, this`faults
      ensures faults >= old(faults)
      ensures r == -1 ==> faults > old(faults) || !k.IsSocket(sock) || k.Find(NameOf(req[..])).None?
      ensures NameOf(req[..]) == old(NameOf(req[..]))
      ensures r == -1 || r == 0
      ensures r == 0 ==>
        && k.IsSocket(sock) && k.Find(NameOf(req[..])).Some?
        && ShortOf(req[..]) == k.ifs[k.Find(NameOf(req[..])).value].flags
    {
      var fails: bool := *;
      var name := NameOf(req[..]);
      r := -1;
      if fails {
        faults := faults + 1;
        return;
      }
      if sock !in k.files || !k.files[sock].Socket? {
        return;
      }
      if u :| u in k.ifs && k.ifs[u].name == name {
        k.FindIs(u);
        PutShort(req, k.ifs[u].flags);
        r := 0;
      }
    }

    /** SIOCGIFADDR on a tap descriptor */
    method GetMac(fd: int) returns (r: int, mac: Mac)
      requires k.Wf()
      modifies this`faults
      ensures faults >= old(faults)
      ensures r == -1 || r == 0
      ensures r == -1 ==> faults > old(faults) || !(fd in k.files && k.files[fd].Tun?)
      ensures r == 0 ==> fd in k.files && k.files[fd].Tun? && mac == k.ifs[k.files[fd].unit].mac
    {
      var fails: bool := *;
      mac := Zeros(6);
      r := -1;
      if fails {
        faults := faults + 1;
        return;
      }
      if fd in k.files && k.files[fd].Tun? {
        mac := k.ifs[k.files[fd].unit].mac;
        r := 0;
      }
    }

    /** SIOCSIFNAME; the new name is passed by pointer and may have fifteen bytes. */
    method Rename(sock: int, req: array<byte>, newName: seq<byte>) returns (r: int)
      requires req.Length == REQUEST && k.Wf() && 0 !in newName
      modifies this
      ensures k.Wf()
      ensures faults >= old(faults)
      ensures r == -1 ==> k == old(k)
      ensures r == -1 ==> faults > old(faults) || !k.IsSocket(sock) || !k.MayRename(NameOf(req[..]), newName)
      ensures r != -1 ==>
        && r == 0
        && old(k).IsSocket(sock) && old(k).MayRename(NameOf(req[..]), newName)
        && var u := old(k).Find(NameOf(req[..])).value;
           k == old(k).Update(u, old(k).ifs[u].(name := newName))
    {
      var fails: bool := *;
      r := -1;
      if fails {
        faults := faults + 1;
        return;
      }
      if sock !in k.files || !k.files[sock].Socket? || !(0 < |newName| <= 15) {
        return;
      }
      if u :| u in k.ifs && k.ifs[u].name == NameOf(req[..]) {
        var taken := set other | other in k.ifs && other != u && k.ifs[other].name == newName;
        if taken == {} {
          k.FindIs(u);
          assert forall other | other in k.ifs && other != u :: other !in taken;
          k := k.Update(u, k.ifs[u].(name := newName));
          return 0;
        }
      }
    }

    /** SIOCIFDESTROY; it does not get past a descriptor that is still open. */
    method Remove(sock: int, req: array<byte>) returns (r: int)
      requires req.Length == REQUEST && k.Wf()
      modifies this
      ensures k.Wf()
      ensures faults >= old(faults)
      ensures r == -1 ==> k == old(k)
      ensures r == -1 ==>
        || faults > old(faults) || !k.IsSocket(sock) || k.Find(NameOf(req[..])).None?
        || k.Held(k.Find(NameOf(req[..])).value)
      ensures r != -1 ==>
        && r == 0
        && old(k).IsSocket(sock) && old(k).Find(NameOf(req[..])).Some?
        && !old(k).Held(old(k).Find(NameOf(req[..])).value)
        && k == old(k).Remove(old(k).Find(NameOf(req[..])).value)
    {
      var fails: bool := *;
      r := -1;
      if fails {
        faults := faults + 1;
        return;
      }
      if sock !in k.files || !k.files[sock].Socket? {
        return;
      }
      if u :| u in k.ifs && k.ifs[u].name == NameOf(req[..]) {
        k.FindIs(u);
        if !exists f | f in k.files :: k.files[f] == Tun(u) {
          k := k.Remove(u);
          return 0;
        }
      }
    }
  }
}
