/** tuntap-windows.c: the list of candidate adapters, and the scan that opens one. */
module Windows {
  import opened Common
  import opened DeviceState

  const INVALID := -1

  /** A subkey of the network adapter class: what can be read of it, and the number
      `sscanf` finds in its instance id. */
  datatype Adapter = Adapter(listed: bool, opens: bool, componentId: Option<string>,
                             deviceInstanceId: Option<string>, index: Option<int>, netCfgInstanceId: Option<string>)

  datatype KeyEvent = OpenKey(i: int) | CloseKey(i: int)

  const ROOT := -1

  // ---- Which adapters are candidates -----------------------------------------------

  /** `strncmp(s, prefix, strlen(prefix)) == 0` */
  predicate StartsWith(s: string, prefix: string) {
    prefix <= s
  }

  predicate Reached(a: Adapter) {
    a.listed && a.opens
  }

  predicate Candidate(a: Adapter, id: int) {
    && Reached(a)
    && a.componentId.Some? && (StartsWith(a.componentId.value, "tap") || StartsWith(a.componentId.value, "root\\tap"))
    && a.deviceInstanceId.Some?
    && a.index.Some? && (id == ID_ANY || a.index.value == id)
    && a.netCfgInstanceId.Some?
  }

  /** The instance ids of the candidates, in registry order. */
  function Candidates(adapters: seq<Adapter>, id: int): seq<string> {
    if adapters == [] then []
    else
      var last := adapters[|adapters| - 1];
      Candidates(adapters[..|adapters| - 1], id) + if Candidate(last, id) then [last.netCfgInstanceId.value] else []
  }

  /** Each adapter key that opens is closed before the next is opened. */
  function Visits(adapters: seq<Adapter>): seq<KeyEvent> {
    if adapters == [] then []
    else
      var i := |adapters| - 1;
      Visits(adapters[..i]) + if Reached(adapters[i]) then [OpenKey(i), CloseKey(i)] else []
  }

  function DevicePath(id: string): string {
    "\\\\.\\Global\\" + id + ".tap"
  }

  function Count<T(==)>(s: seq<T>, x: T): nat {
    multiset(s)[x]
  }

  /** Every key is closed as often as it is opened: once, or not at all. */
  lemma {:induction false} VisitsBalance(adapters: seq<Adapter>, i: int)
    ensures Count(Visits(adapters), OpenKey(i)) == Count(Visits(adapters), CloseKey(i))
    ensures Count(Visits(adapters), OpenKey(i)) ==
      if 0 <= i < |adapters| && adapters[i].listed && adapters[i].opens then 1 else 0
  {
    hide Count;
    if adapters != [] {
      var before, last := adapters[..|adapters| - 1], |adapters| - 1;
      VisitsBalance(before, i);
      CountPair(last, i);
      if Reached(adapters[last]) {
        CountAppend(Visits(before), [OpenKey(last), CloseKey(last)], OpenKey(i));
        CountAppend(Visits(before), [OpenKey(last), CloseKey(last)], CloseKey(i));
      } else {
        assert Visits(adapters) == Visits(before);
      }
    } else {
      CountNothing(i);
    }
  }

  lemma CountNothing(i: int)
    ensures Count([], OpenKey(i)) == Count([], CloseKey(i)) == 0
  {
  }

  lemma CountPair(j: int, i: int)
    ensures Count([OpenKey(j), CloseKey(j)], OpenKey(i)) == (if i == j then 1 else 0)
    ensures Count([OpenKey(j), CloseKey(j)], CloseKey(i)) == (if i == j then 1 else 0)
  {
  }

  lemma CountAppend<T>(s: seq<T>, t: seq<T>, x: T)
    ensures Count(s + t, x) == Count(s, x) + Count(t, x)
  {
  }

  lemma {:induction false} ListedAreCandidates(adapters: seq<Adapter>, id: int, s: string)
    ensures s in Candidates(adapters, id) <==>
      exists a :: a in adapters && Candidate(a, id) && a.netCfgInstanceId.value == s
  {
    if adapters != [] {
      ListedAreCandidates(adapters[..|adapters| - 1], id, s);
    }
  }

  /** What one adapter adds to the list; with CandidatesInOrder this settles every list. */
  lemma CandidatesOfOne(a: Adapter, id: int)
    ensures Candidates([a], id) ==
      if a.listed && a.opens
         && a.componentId.Some? && ("tap" <= a.componentId.value || "root\\tap" <= a.componentId.value)
         && a.deviceInstanceId.Some? && a.index.Some? && (id == 257 || a.index.value == id)
         && a.netCfgInstanceId.Some?
      then [a.netCfgInstanceId.value]
      else []
  {
    assert Candidates([a][..0], id) == [];
  }

  /** A string is in the list exactly when some adapter passes every test and has it as
      its instance id. */
  lemma CandidatesAreAll(adapters: seq<Adapter>, id: int, s: string)
    ensures s in Candidates(adapters, id) <==>
      exists a :: a in adapters && a.listed && a.opens
        && a.componentId.Some? && ("tap" <= a.componentId.value || "root\\tap" <= a.componentId.value)
        && a.deviceInstanceId.Some? && a.index.Some? && (id == 257 || a.index.value == id)
        && a.netCfgInstanceId == Some(s)
  {
    ListedAreCandidates(adapters, id, s);
  }

  lemma {:induction false} CandidatesInOrder(a: seq<Adapter>, b: seq<Adapter>, id: int)
    ensures Candidates(a + b, id) == Candidates(a, id) + Candidates(b, id)
  {
    if b == [] {
      assert a + b == a;
    } else {
      CandidatesInOrder(a, b[..|b| - 1], id);
      assert (a + b)[..|a + b| - 1] == a + b[..|b| - 1];
    }
  }

  // ---- The code ------------------------------------------------------------------------

  /** The registry, the C heap's strings and the open device handles. */
  class Machine {
    const adapters: seq<Adapter>
    const rootOpens: bool
    const rootAnswers: bool
    const openable: set<string>      // device paths that open
    var keys: seq<KeyEvent>
    var strings: map<nat, string>    // allocated strings; 0 is no address
    var handles: map<int, string>

    ghost predicate Valid()
      reads this
    {
      0 !in strings && INVALID !in handles
    }

    /** The registry query succeeds; otherwise the caller follows a null pointer. */
    predicate Readable() {
      rootOpens && rootAnswers && |adapters| > 0
    }

    constructor (adapters: seq<Adapter>, rootOpens: bool, rootAnswers: bool, openable: set<string>)
      ensures Valid() && this.adapters == adapters && this.openable == openable
      ensures this.rootOpens == rootOpens && this.rootAnswers == rootAnswers
      ensures keys == [] && strings == map[] && handles == map[]
    {
      this.adapters, this.rootOpens, this.rootAnswers, this.openable := adapters, rootOpens, rootAnswers, openable;
      keys, strings, handles := [], map[], map[];
    }

    method Strdup(s: string) returns (p: nat)
      requires Valid()
      modifies this`strings
      ensures Valid() && p != 0 && p !in old(strings) && strings == old(strings)[p := s]
    {
      p := LowestFree(strings.Keys + {0});
      strings := strings[p := s];
    }

    /** `free`: of an allocated string, once. */
    method Free(p: nat)
      requires Valid() && p in strings
      modifies this`strings
      ensures Valid() && strings == old(strings) - {p}
    {
      strings := strings - {p};
    }

    method CreateFile(path: string) returns (h: int)
      requires Valid()
      modifies this`handles
      ensures Valid()
      ensures path in openable ==> h != INVALID && h !in old(handles) && handles == old(handles)[h := path]
      ensures path !in openable ==> h == INVALID && handles == old(handles)
    {
      if path !in openable {
        return INVALID;
      }
      h := LowestFree(handles.Keys);
      handles := handles[h := path];
    }
  }

  /** `ptrs` is a null-terminated list of strings with contents `ids`, all allocated
      since `before`, and nothing else was. */
  ghost predicate Lists(strings: map<nat, string>, before: map<nat, string>, ptrs: seq<nat>, ids: seq<string>) {
    && |ptrs| == |ids| + 1 && ptrs[|ids|] == 0
    && (forall i | 0 <= i < |ids| ::
          ptrs[i] != 0 && ptrs[i] !in before && ptrs[i] in strings && strings[ptrs[i]] == ids[i])
    && (forall i, j | 0 <= i < j < |ids| :: ptrs[i] != ptrs[j])
    && (forall p | p in strings :: p in before || p in ptrs[..|ids|])
    && (forall p | p in before :: p in strings && strings[p] == before[p])
  }

  lemma ListsOneMore(strings: map<nat, string>, before: map<nat, string>, ptrs: seq<nat>, ids: seq<string>,
                     p: nat, s: string)
    requires Lists(strings, before, ptrs, ids) && p != 0 && p !in strings
    ensures Lists(strings[p := s], before, ptrs[..|ids|] + [p] + [0], ids + [s])
  {
    var ptrs', n := ptrs[..|ids|] + [p] + [0], |ids|;
    assert ptrs'[..n + 1] == ptrs[..n] + [p];
  }

  /** Appends one string: it takes the sentinel's place, and the array grows by a new
      sentinel. */
  method Append(m: Machine, list: array<nat>, s: string, ghost before: map<nat, string>, ghost ids: seq<string>)
    returns (list': array<nat>)
    requires m.Valid() && Lists(m.strings, before, list[..], ids)
    modifies m`strings, list
    ensures m.Valid() && fresh(list') && Lists(m.strings, before, list'[..], ids + [s])
  {
    var n := list.Length;
    var p := m.Strdup(s);
    ListsOneMore(old(m.strings), before, list[..], ids, p, s);
    list[n - 1] := p;
    assert list[..] == old(list[..])[..n - 1] + [p];
    list' := Grow(list);
  }

  /** `realloc` to one more element, which becomes the sentinel. */
  method Grow(list: array<nat>) returns (list': array<nat>)
    ensures fresh(list') && list'[..] == list[..] + [0]
  {
    list' := new nat[list.Length + 1];
    for i := 0 to list.Length
      invariant list'[..i] == list[..i]
    {
      list'[i] := list[i];
    }
    list'[list.Length] := 0;
  }

  /** The body of the loop over the adapters. */
  method VisitAdapter(m: Machine, i: nat, id: int, list: array<nat>, ghost before: map<nat, string>)
    returns (list': array<nat>)
    requires m.Valid() && i < |m.adapters|
    requires Lists(m.strings, before, list[..], Candidates(m.adapters[..i], id))
    modifies m`strings, m`keys, list
    ensures m.Valid() && (list' == list || fresh(list'))
    ensures Lists(m.strings, before, list'[..], Candidates(m.adapters[..i + 1], id))
    ensures m.keys == old(m.keys) + if Reached(m.adapters[i]) then [OpenKey(i), CloseKey(i)] else []
  {
    hide Lists, Candidates;
    var a := m.adapters[i];
    list' := list;
    CandidatesStep(m.adapters, i, id);
    if !a.listed || !a.opens {
      return;
    }
    m.keys := m.keys + [OpenKey(i)];
    if a.componentId.Some?
       && (StartsWith(a.componentId.value, "tap") || StartsWith(a.componentId.value, "root\\tap"))
       && a.deviceInstanceId.Some? && a.index.Some? && (id == ID_ANY || a.index.value == id)
       && a.netCfgInstanceId.Some?
    {
      list' := Append(m, list, a.netCfgInstanceId.value, before, Candidates(m.adapters[..i], id));
    }
    m.keys := m.keys + [CloseKey(i)];
  }

  /** reg_query */
  method RegQuery(m: Machine, id: int) returns (deviceids: array?<nat>)
    requires m.Valid()
    modifies m`strings, m`keys
    ensures m.Valid()
    ensures deviceids != null <==> m.Readable()
    ensures deviceids != null ==>
      && fresh(deviceids) && Lists(m.strings, old(m.strings), deviceids[..], Candidates(m.adapters, id))
      && m.keys == old(m.keys) + [OpenKey(ROOT)] + Visits(m.adapters) + [CloseKey(ROOT)]
    ensures deviceids == null ==>
      m.strings == old(m.strings) && m.keys == old(m.keys) + if m.rootOpens then [OpenKey(ROOT)] else []
  {
    var list := new nat[1](_ => 0);
    if !m.rootOpens {
      return null;
    }
    m.keys := m.keys + [OpenKey(ROOT)];
    if !m.rootAnswers || |m.adapters| == 0 {
      return null;
    }
    deviceids := VisitAll(m, id, list);
    m.keys := m.keys + [CloseKey(ROOT)];
  }

  /** The loop over the adapters. */
  method VisitAll(m: Machine, id: int, empty: array<nat>) returns (list: array<nat>)
    requires m.Valid() && empty[..] == [0]
    modifies m`strings, m`keys, empty
    ensures m.Valid() && (list == empty || fresh(list))
    ensures Lists(m.strings, old(m.strings), list[..], Candidates(m.adapters, id))
    ensures m.keys == old(m.keys) + Visits(m.adapters)
  {
    list := empty;
    ghost var before, keys := m.strings, m.keys;
    assert Lists(m.strings, before, list[..], Candidates(m.adapters[..0], id)) && Visits(m.adapters[..0]) == [];
    hide Lists, Candidates, Visits;
    for i := 0 to |m.adapters|
      invariant m.Valid() && (list == empty || fresh(list))
      invariant Lists(m.strings, before, list[..], Candidates(m.adapters[..i], id))
      invariant m.keys == keys + Visits(m.adapters[..i])
    {
      VisitsStep(m.adapters, i);
      list := VisitAdapter(m, i, id, list, before);
    }
    assert m.adapters[..|m.adapters|] == m.adapters;
  }

  lemma CandidatesStep(adapters: seq<Adapter>, i: nat, id: int)
    requires i < |adapters|
    ensures Candidates(adapters[..i + 1], id) ==
      if Candidate(adapters[i], id) then Candidates(adapters[..i], id) + [adapters[i].netCfgInstanceId.value]
      else Candidates(adapters[..i], id)
  {
    assert adapters[..i + 1][..i] == adapters[..i];
  }

  lemma VisitsStep(adapters: seq<Adapter>, i: nat)
    requires i < |adapters|
    ensures Visits(adapters[..i + 1]) ==
            Visits(adapters[..i]) + if Reached(adapters[i]) then [OpenKey(i), CloseKey(i)] else []
  {
    assert adapters[..i + 1][..i] == adapters[..i];
  }

  /** The first candidate that opens, or the number of candidates. */
  function FirstOpening(ids: seq<string>, openable: set<string>): (n: nat)
    ensures n <= |ids|
    ensures forall i | 0 <= i < n :: "\\\\.\\Global\\" + ids[i] + ".tap" !in openable
    ensures n < |ids| ==> "\\\\.\\Global\\" + ids[n] + ".tap" in openable
  {
    if ids == [] || DevicePath(ids[0]) in openable then 0 else 1 + FirstOpening(ids[1..], openable)
  }

  /** Of the strings allocated since `before`, those from index `i` on are left. */
  ghost predicate Left(strings: map<nat, string>, before: map<nat, string>, ptrs: seq<nat>, i: nat) {
    && (forall j | i <= j < |ptrs| :: ptrs[j] in strings && ptrs[j] !in before)
    && (forall p | p in strings :: p in before || exists j :: i <= j < |ptrs| && ptrs[j] == p)
    && (forall p | p in before :: p in strings && strings[p] == before[p])
  }

  lemma FreeOne(strings: map<nat, string>, before: map<nat, string>, ptrs: seq<nat>, i: nat)
    requires Left(strings, before, ptrs, i) && i < |ptrs|
    requires forall j, l | 0 <= j < l < |ptrs| :: ptrs[j] != ptrs[l]
    ensures Left(strings - {ptrs[i]}, before, ptrs, i + 1)
  {
    forall p | p in strings - {ptrs[i]} && p !in before
      ensures exists j :: i + 1 <= j < |ptrs| && ptrs[j] == p
    {
      var j :| i <= j < |ptrs| && ptrs[j] == p;
    }
  }

  /** The cleanup loop of tuntap_start. */
  method FreeAll(m: Machine, list: array<nat>, ghost before: map<nat, string>, ghost ids: seq<string>)
    requires m.Valid() && Lists(m.strings, before, list[..], ids)
    modifies m`strings
    ensures m.Valid() && m.strings == before
  {
    ghost var ptrs := list[..|ids|];
    assert forall p | p in m.strings && p !in before :: p in ptrs;
    var i := 0;
    while list[i] != 0
      invariant i <= |ids| && m.Valid() && Left(m.strings, before, ptrs, i)
      decreases |ids| - i
    {
      FreeOne(m.strings, before, ptrs, i);
      m.Free(list[i]);
      i := i + 1;
    }
  }

  class Device {
    var tunFd: int

    constructor ()
      ensures tunFd == INVALID
    {
      tunFd := INVALID;
    }

    /** tuntap_start */
    method Start(m: Machine, mode: int, tun: int) returns (r: int)
      requires m.Valid()
      requires tunFd == INVALID && BareMode(mode) == MODE_ETHERNET ==> m.Readable()
      modifies this, m
      ensures m.Valid() && (r == 0 || r == -1)
      ensures m.strings == old(m.strings)
      ensures r == -1 ==> tunFd == old(tunFd) && m.handles == old(m.handles)
      ensures old(tunFd) != INVALID ==> r == -1
      ensures var ids := Candidates(m.adapters, tun);
        var n := FirstOpening(ids, m.openable);
        && (r == 0 ==> n < |ids| && tunFd != INVALID && tunFd !in old(m.handles)
                       && m.handles == old(m.handles)[tunFd := "\\\\.\\Global\\" + ids[n] + ".tap"])
        && (r == -1 && old(tunFd) == INVALID && (mode == 1 || mode == 5) ==> n == |ids|)
        && (r == 0 ==> mode == 1 || mode == 5)
    {
      hide Lists, Candidates, Visits, FirstOpening;
      if tunFd != INVALID {
        return -1;
      }
      var bare := BareMode(mode);
      if bare == MODE_TUNNEL || bare != MODE_ETHERNET {
        return -1;
      }
      var deviceids := RegQuery(m, tun);
      ghost var ids := Candidates(m.adapters, tun);
      var fd := OpenFirst(m, deviceids, old(m.strings), ids);
      FreeAll(m, deviceids, old(m.strings), ids);
      if fd == INVALID {
        return -1;
      }
      tunFd := fd;
      r := 0;
    }

    /** The scan of tuntap_start. */
    static method OpenFirst(m: Machine, list: array<nat>, ghost before: map<nat, string>, ghost ids: seq<string>)
      returns (fd: int)
      requires m.Valid() && Lists(m.strings, before, list[..], ids)
      modifies m`handles
      ensures m.Valid() && Lists(m.strings, before, list[..], ids)
      ensures var n := FirstOpening(ids, m.openable);
        if n < |ids|
        then fd != INVALID && fd !in old(m.handles) && m.handles == old(m.handles)[fd := DevicePath(ids[n])]
        else fd == INVALID && m.handles == old(m.handles)
    {
      fd := INVALID;
      var i := 0;
      while list[i] != 0
        invariant i <= |ids| && m.Valid() && Lists(m.strings, before, list[..], ids)
        invariant m.handles == old(m.handles) && fd == INVALID
        invariant forall j | 0 <= j < i :: DevicePath(ids[j]) !in m.openable
        decreases |ids| - i
      {
        fd := m.CreateFile(DevicePath(m.strings[list[i]]));
        if fd != INVALID {
          break;
        }
        i := i + 1;
      }
    }
  }
}
