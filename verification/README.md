# A verified model of libtuntap

libtuntap configures TUN and TAP network devices. This project models, in Dafny, the parts of it
that carry state or compute something, and proves what they promise:

* the hexdump formatter, on its real NUL-terminated buffers, against an independent reader;
* the life of a device on Linux, over every run of any number of devices in one process, against a
  kernel whose calls may all fail;
* unit allocation, renaming and destruction on FreeBSD, and the unit scan on OpenBSD;
* the candidate list and first-openable scan on Windows;
* the ownership rules of the C++ wrapper;
* the block checksum and the IPv4 netmask.

## How it is built

| files | contents |
|---|---|
| `Common`, `CText` | bytes, options; C strings in `char` buffers with `strlen`, `strncat`, `snprintf` |
| `Hexdump`, `HexdumpReader` | the formatter, and the reader with the theorems about dumps |
| `Checksum`, `Netmask` | the arithmetic |
| `IfRequest`, `DeviceState` | `struct ifreq` as forty bytes and how it is filled in; `struct device` as a value |
| `DriverNames` | names such as "tun12", and how they are read back |
| `LinuxKernel`, `LinuxDevice` | the kernel object (one method a system call) and the device object (one method a library call) |
| `LinuxRuns`, `LinuxTheorems` | runs as sequences of events, and what all runs keep |
| `LinuxDisposal` | when disposing of a device is safe, what a caller can do to be sure, and runs that go wrong |
| `LinuxClient` | the methods that show each call, among any number of device objects, to be one event of a run |
| `FreeBsdKernel`, `FreeBsdDevice`, `FreeBsdRuns` | the same for FreeBSD, with one device and everybody else |
| `OpenBsd`, `Windows`, `CppOwnership` | one file each |

Code that works on buffers, fields or loops is a method on arrays or objects. Each such method is
tied by its contract to a step on values, and the theorems are about sequences of these steps.
System calls answer nondeterministically: a call either fails and changes nothing, or does what the
kernel model says. New descriptors get the lowest free number. A system call may be turned down for
a reason the model knows, such as a name that is taken, or fail for no reason in the model; a ghost
field of the kernel object counts the latter, the failures without cause. So a contract can say
exactly when a library call succeeds if there is none of these. Modes, limits and letters that the
code takes from headers and literals appear in the theorems as numbers and letters, too. On Linux
the application may open and close descriptors of its own at any time, but nobody outside the
process touches its interfaces; on FreeBSD others may do anything that leaves the device's own
descriptors and the name of its interface alone.

## What turned out false, and exactly when

* **Releasing a device that never started.** A start that fails after opening its control socket
  closes the socket but leaves its number in the device (tuntap-unix.c:67, 85-87). Releasing or
  destroying that device closes the number again (tuntap-unix.c:98), and by then it may belong to
  another device or to the application. `StaleSocketRun` is such a run, in which no system call
  fails and every descriptor is the lowest free. In terms of the state, `ReleaseIsSafeExactlyWhen`
  and `DestroyIsSafeExactlyWhen` say when disposal closes the device's own descriptors and no
  others: the device is started, or the number it remembers is not in use. Runs that keep to this
  are called orderly. The number is hidden from callers, so `PrudentIsOrderly` gives a condition on
  the caller's own calls: no device is disposed of after its start lost the socket and some
  descriptor was opened since. Disposing of a device at once whenever its start fails, as the C++
  constructor does, is enough (`PromptIsOrderly`), and so is a run in which no start loses its
  socket (`NoLostSocketIsOrderly`). Waiting is not safe: in any state, one descriptor opened in
  between can be the one that is closed (`OneOpeningIsEnough`).
* **The tun descriptor of a failed start** stays open (tuntap-unix-linux.c:88-113). Unless a system
  call fails without cause, this happens exactly when the device is not started, the arguments are
  valid, and a unit is named that cannot be had: an interface of its name is of another kind or in use,
  or at most one of the descriptor numbers 0 to 256 is free (`StartSucceedsExactlyWhen`,
  `GrowthExactlyWhen`, and the contract of `Start`). `BusyUnitRun` is a run in which two devices ask for
  the same unit, `LeakingRun` one in a crowded process. `DescriptorBalance` counts these descriptors:
  one for each such start, and nothing else is ever left over.
* **A name of sixteen bytes** is accepted, but the name field of a request holds fifteen and a zero.
  The device then remembers a longer name than the kernel has (`CachedName`: they are equal exactly
  when the name has at most fifteen bytes), while its requests still reach the right interface.
  `LongNameIsCut` is such a rename, possible for any started device.
* **A failed FreeBSD start** can leave behind the interface it created, or the descriptor it opened on
  it (tuntap-unix-freebsd.c:104-153). The contracts of `SysStart` and `Start` list the exact
  possibilities: nothing, one new interface, or one open descriptor of the unit together with the unit
  if it was new. They also say that nothing is left unless a system call failed without cause.
* **A failed OpenBSD start** closes nothing (tuntap-unix-openbsd.c:111-134). It leaves a descriptor
  open exactly when some unit opens: the one the scan returned, whether the start then fails on the
  number 256 or on a flag request, and descriptor 0 if that was free (`ScanLeaves`, and the contract
  of `StartAny`).
* **OpenBSD's scan** treats descriptor 0 like a failure. It picks the least unit that opens exactly
  when descriptor 0 is already in use (`ScanIsFirstFitExactlyWhen`).
* **Hexdump labels** name the offset of their line exactly up to 0xFFFF (`LabelIsOffset`).
* **The checksum** stays in the range of `int` for every block exactly up to 131072 bytes
  (`SafeLengths`).

The API document says that a persistent start may use TUNTAP_ID_ANY; the code turns it down
(tuntap-unix.c:69-71), and so does the model.

## Model

| member | source | states |
|---|---|---|
| HexdumpReader.RoundTrip | tuntap_log.c:66-118 | reading the hex columns of the dump of any block gives back exactly that block, for every length and tail |
| HexdumpReader.DumpIsInjective | tuntap_log.c:66-118 | two different blocks never have the same dump |
| HexdumpReader.Shape | tuntap_log.c:78-117 | one line per sixteen bytes begun; up to 65536 bytes, line i reads back as labelled 16*i |
| HexdumpReader.LabelIsOffset | tuntap_log.c:79-82 | a label names its line's offset if and only if the offset is at most 0xFFFF |
| HexdumpReader.Composition | tuntap_log.c:78-110 | dumping a then b shows the lines of a, then the hex and character columns of b, when a ends a line |
| HexdumpReader.CharColumnShows | tuntap_log.c:84-95 | the character column has one character a byte, and one blank after the eighth |
| HexdumpReader.LineShows | tuntap_log.c:79-100 | every character of a line: brackets, the four leading lower-case digits of the offset, two upper-case digits and a blank a byte, the byte itself if it is 46 or in 48-57, 65-90 or 97-122 and a dot otherwise, and blanks in all other places |
| HexdumpReader.DumpShows | tuntap_log.c:78-117 | byte p of any block is shown on line p / 16 in place p % 16 |
| Hexdump.PendingLengths | tuntap_log.c:74-75 | with k bytes pending the hex buffer holds 3k characters, two more from the eighth byte on, and the character buffer k, one more |
| Hexdump.FormatIsLine | tuntap_log.c:100 | neither precision of the format ever cuts a column short |
| Hexdump.LineFits | tuntap_log.c:76 | every line fits the output buffer and has no NUL inside |
| Hexdump.AppendByte | tuntap_log.c:84-95 | appending a byte to the real buffers never loses a character to a strncat bound |
| Hexdump.FlushLine | tuntap_log.c:97-101 | a flushed buffer is exactly the line of the pending bytes |
| Hexdump.Hexdump | tuntap_log.c:66-118 | the loop over the buffers logs exactly the dump of the block |
| Checksum.Chksum | tuntap_log.c:120-139 | the loop in 32-bit arithmetic yields the complement of the word total, for every block whose partial sums fit |
| Checksum.ValueOfByte | tuntap_log.c:136-139 | the value for one byte: an odd byte counts as a signed char |
| Checksum.ValueOfPair | tuntap_log.c:129-139 | the value for two bytes: a signed word, low byte first |
| Checksum.SafeLengths | tuntap_log.c:127-138 | every block of a length is safe from overflow if and only if the length is at most 131072 |
| Checksum.LongBlocksOverflow | tuntap_log.c:127-138 | for every greater length there is a block whose sum leaves the int range |
| Checksum.WordOrderIsInvisible | tuntap_log.c:129-133 | blocks with the same words in any order, and the same odd byte, have the same checksum |
| Checksum.Concatenation | tuntap_log.c:129-139 | after an even-length block a, the checksum of a and b together is the sum of theirs plus one |
| Netmask.ComputeMask | tuntap.c:106-115 | the branch on 32, the shift and the byte swap store a mask whose bit i on the wire is set if and only if i is below the prefix length |
| Netmask.MaskValue | tuntap.c:108-113 | the mask is 2^32 less the size of the network |
| Netmask.MaskBits | tuntap.c:108-114 | on the wire the stored mask is n ones and then zeros |
| Netmask.FamiliarMasks | tuntap.c:108-114 | the masks of 0, 8, 16, 20, 24 and 32 as numbers in memory |
| Netmask.MaskBytes | tuntap.c:108-114 | each stored byte is the prefix mask of the bits that fall into it |
| Netmask.NetworksArePrefixes | tuntap.c:106-115 | two addresses agree under the mask if and only if their first n bits on the wire agree |
| Netmask.ShorterIsCoarser | tuntap.c:106-115 | a shorter prefix gives a strictly coarser partition of the addresses |
| IfRequest.CopyName | tuntap-unix.c:193-194 | the 17-byte copy over a 16-byte field still carries the name, and spills only the last byte of the buffer |
| IfRequest.PutShort | tuntap-unix.c:195-196 | a flag store overwrites the spilled byte and leaves the name as it was |
| IfRequest.PutNewName | tuntap-unix-linux.c:239-241 | an unterminated new name is read back from the zeroed request as requested, up to fifteen bytes |
| DeviceState.ModeBits | tuntap-unix-linux.c:52-71 | what the persistence bit is, what is left without it, and that exactly the modes 1, 2, 5 and 6 are valid, for every int |
| DeviceState.RandomMacIs | tuntap-unix.c:163-173 | the two low bits of the first byte are cleared, everything else is as drawn |
| DriverNames.DriverNameIs | tuntap-unix-linux.c:64-91 | a unit is called "tap" or "tun" followed by its number in decimal, without leading zeros |
| DriverNames.DriverNameParses | tuntap-unix-freebsd.c:55-58 | formatted unit names stand for their units, so different units never collide |
| LinuxDevice.Device.constructor | tuntap.c:36-55 | a fresh device has no descriptors and an empty, terminated name |
| LinuxDevice.Device.Claim | tuntap-unix-linux.c:86-107 | the clone descriptor gets an interface of the kind and name asked for, persistent if and only if asked and granted |
| LinuxDevice.Device.SaveInterface | tuntap-unix-linux.c:109-132 | flags, name and address read back from the kernel, or nothing changed |
| LinuxDevice.Device.SysStart | tuntap-unix-linux.c:44-133 | every way the start ends, and the descriptors and interface each leaves behind; without a failure for no cause it fails only for invalid arguments, a descriptor number above 256 with a unit named, an interface that cannot be had, or a control socket that is none |
| LinuxDevice.Device.Start | tuntap-unix.c:49-89 | the start is one of the start steps of a run, with the lowest free numbers; unless a system call failed without cause, it returns 0, and it leaks a descriptor, if and only if conditions on the state before the call hold, and a tap device has read its address |
| LinuxDevice.EndsExactlyWhen | tuntap-unix-linux.c:82-113 | with the lowest free numbers and no failure without cause, a usable start succeeds exactly when it names no unit or can have it, and leaks exactly when it names one it cannot have |
| LinuxDevice.Device.Release | tuntap-unix.c:91-100 | the kernel after a release, for started and unstarted devices |
| LinuxDevice.Device.Destroy | tuntap.c:57-62 | the kernel after clearing the persistence bit, if that succeeds, and then releasing; clearing fails without cause or because the device holds no interface |
| LinuxDevice.Device.SetUpDown | tuntap-unix.c:188-222 | a request built from the cached flags changes the interface of that name and the cache alike; on failure neither, and then a system call failed without cause or there is no such interface |
| LinuxDevice.Device.SetIfname | tuntap-unix.c:121-144 | a rename changes the interface and rewrites the buffer without residue, or changes nothing; it fails only without cause, or if the name is too long, empty or taken, or there is no interface |
| LinuxDevice.Device.SetHwaddr | tuntap-unix.c:155-186 | the address is cached first; the interface gets the same address, and fails to only without cause, for a text that is no address, or without an interface |
| LinuxDevice.Device.RandomAddress | tuntap-unix.c:160-173 | the byte loop fills in the random address, with its two low bits clear |
| LinuxRuns.StepKeepsInv | tuntap-unix.c:49-222 | every orderly call of any device keeps: own live descriptors, caches equal to the kernel's flags and names, and a complete account of the table |
| LinuxTheorems.DescriptorSafety | tuntap-unix.c:49-100 | in every reachable state a started device's two descriptors are open, distinct, and disjoint from every other device's |
| LinuxTheorems.DescriptorBalance | tuntap-unix.c:49-100 | after any orderly run, in which the application also opens and closes descriptors as it likes, the table is what the application itself made of it, what started devices own, and one descriptor per failed start that had opened the clone device |
| LinuxTheorems.TableComesBack | tuntap.c:36-62 | when no start leaked and all devices are gone, the table is what the application alone would have made of it |
| LinuxDisposal.ReleaseIsSafeExactlyWhen | tuntap-unix.c:91-100 | in terms of the state: a release closes the device's own descriptors and no others if and only if it is started or its remembered socket number is not in use |
| LinuxDisposal.DestroyIsSafeExactlyWhen | tuntap.c:57-62 | the same for a destroy |
| LinuxDisposal.PrudentIsOrderly | tuntap-unix.c:63-100 | in terms of the caller's own calls: if no device is disposed of after its start lost the socket and a descriptor was opened since, every disposal in the run is safe |
| LinuxDisposal.PromptIsOrderly | tuntap-unix.c:63-100 | a caller that disposes of a device at once when its start loses the socket is safe throughout |
| LinuxDisposal.NoLostSocketIsOrderly | tuntap-unix.c:63-100 | if no start fails after getting its socket, every disposal in the run is safe |
| LinuxDisposal.OneOpeningIsEnough | tuntap-unix.c:85-98 | in any state, a device that lost its socket can have one descriptor opened by the application that its release would close |
| LinuxDisposal.StaleSocketRun | tuntap-unix.c:67-98 | a run without a failing system call in which releasing one device closes the control socket of another |
| LinuxDisposal.LeakingRun | tuntap-unix-linux.c:86-113 | an orderly run without a failing system call that leaves the tun descriptor of a start open for good |
| LinuxDisposal.BusyUnitRun | tuntap-unix-linux.c:86-99 | a run in which two devices ask for tun0, the second start is turned down, and its descriptor stays open after both are released |
| LinuxTheorems.NonInterference | tuntap-unix.c:121-222 | after any run a device and its interface are what its own successful calls made of them, whatever other devices did |
| LinuxTheorems.CachedFlags | tuntap-unix.c:188-222 | the cached flags are the kernel's and 16-bit; IFF_UP is as last set, all other bits are as read at start |
| LinuxTheorems.CachedName | tuntap-unix.c:121-144 | the buffer stays terminated and reads as the last requested name; the kernel's name is its first fifteen bytes |
| LinuxTheorems.LongNameIsCut | tuntap-unix.c:121-144 | any started device can take a sixteen-byte name unless its first fifteen bytes are taken; the buffer then reads as asked and the kernel's name has fifteen |
| LinuxTheorems.StartIsAllOrNothing | tuntap-unix.c:55-88 | a failed start changes only the socket number, which is closed again; the table grows by two, by one leaked, or not at all, and by nothing else |
| LinuxTheorems.GrowthExactlyWhen | tuntap-unix-linux.c:82-113 | unless a system call fails without cause, which of the three it is follows from the arguments and the kernel before the call |
| LinuxTheorems.StartSucceedsExactlyWhen | tuntap-unix.c:55-88 | by the numbers of tuntap.h, when a start succeeds if no system call fails without cause: mode 1, 2, 5 or 6, a unit from 0 on or 257 (not with 5 or 6), two of the numbers 0 to 256 free and the interface not taken if a unit is named |
| LinuxTheorems.StartedInterface | tuntap-unix-linux.c:60-132 | what a successful start made: a tap interface for modes 1 and 5 and a tun one for 2 and 6, called after the unit if one was named, persistent if asked, with its name, flags and (for a tap) address in the device |
| LinuxTheorems.Lifetime | tuntap-unix-linux.c:101-141 | after any run, release keeps the interface exactly when it is persistent; destroy removes it unless it is persistent and clearing fails; no other interface goes |
| LinuxClient.Perform | tuntap-unix.c:49-222 | any call of a client on one device, whatever it answers, is one enabled event of a run, with the state that event leads to; unless a system call fails without cause it succeeds exactly when nothing is in its way: for up, down and address changes, when the device is started |
| LinuxClient.PerformAmong | tuntap-unix.c:49-222 | the same among any number of device objects: the process they make up takes exactly that step, the other objects included |
| LinuxClient.Create | tuntap.c:36-55 | a new device object joins the others as the event of a run that adds it |
| FreeBsdDevice.Device.CreateDev | tuntap-unix-freebsd.c:49-68 | 1 when exactly that unit was created, 0 when it existed, and otherwise no change |
| FreeBsdDevice.Device.CreateAny | tuntap-unix-freebsd.c:112-124 | first fit: the unit was free, all smaller ones were taken, the interfaces grew by it alone; 256 and no change when all are taken |
| FreeBsdDevice.Device.SysStart | tuntap-unix-freebsd.c:70-168 | on success the descriptor refers to the right unit, and the device remembers its real name and flags and, for modes 1 and 5, its address; on failure nothing, one new interface of the right unit, or one open descriptor of it remains; without failures for no cause it succeeds exactly when the right unit can be created or opened, and leaves nothing otherwise |
| FreeBsdDevice.Device.Start | tuntap-unix.c:49-89 | the same for the whole start, without the control socket after a failure: a failed start leaves the cached flags and address; a successful one adds two descriptors and at most one interface |
| FreeBsdDevice.RightUnitIs | tuntap-unix-freebsd.c:87-128 | by the numbers of tuntap.h, which unit a start works on: the named one below 256, which must be new for modes 5 and 6, or with 257 the least free one, and 256 if there is none |
| FreeBsdDevice.Device.SetIfname | tuntap-unix-freebsd.c:251-265 | a rename changes the interface of that name and the buffer, or nothing; it fails only without cause or if the rename is not possible |
| FreeBsdDevice.Device.SysDestroy | tuntap-unix-freebsd.c:170-183 | the tun descriptor is closed first, then the interface of the cached name is removed, unless the kernel fails without cause or something else holds it |
| FreeBsdRuns.DestroyHitsItsOwn | tuntap-unix-freebsd.c:171-183 | after any run of renames, among anything others do, destroy removes exactly the interface the start opened, and closes exactly its two descriptors |
| FreeBsdRuns.ClosedEarlyClosedOnce | tuntap-unix-freebsd.c:175-177 | the number closed early is not closed again, even if it has been given to someone else meanwhile |
| FreeBsdRuns.RemovedMeansReleased | tuntap-unix-freebsd.c:175-182 | the kernel can remove the interface if and only if no other descriptor holds it |
| OpenBsd.Device.Scan | tuntap-unix-openbsd.c:95-102 | what the scan returns and leaves open, whatever descriptor numbers it is given |
| OpenBsd.ScanIsFirstFitExactlyWhen | tuntap-unix-openbsd.c:95-113 | the scan opens the least unit that opens, and nothing else, if and only if descriptor 0 is in use |
| OpenBsd.ScanInOrdinaryProcess | tuntap-unix-openbsd.c:95-113 | when 0 and 256 are not handed out: the least unit on success, and -1 with nothing left open on exhaustion |
| OpenBsd.ScanLeaves | tuntap-unix-openbsd.c:95-113 | the scan opens the descriptor it returns and, if some unit opens and 0 was free, descriptor 0, all of units of the right kind; nothing exactly when no unit opens |
| OpenBsd.Device.StartAny | tuntap-unix-openbsd.c:90-138 | on success the name is the driver's with the scanned unit, and setting the flags back leaves them as they were; it fails only without cause, or for the descriptors -1 and 256, or a missing interface, and then leaves the table as it was if and only if no unit opens |
| Windows.RegQuery | tuntap-windows.c:71-159 | the list is exactly the ids of the matching adapters in registry order, then a null; each opened key is closed; a failed query adds no string and leaves the root key open if it was opened |
| Windows.CandidatesOfOne | tuntap-windows.c:109-151 | what one adapter adds to the list, by its fields: its id if it can be read, its component id begins with tap or root\tap, and its index is the one asked for or 257 was asked for |
| Windows.CandidatesAreAll | tuntap-windows.c:121-151 | a string is in the list if and only if it is the id of some adapter that passes these tests, spelled out on its fields |
| Windows.CandidatesInOrder | tuntap-windows.c:109-156 | the list of two registries one after the other is the one list after the other, so candidates keep the registry's order |
| Windows.VisitsBalance | tuntap-windows.c:114-156 | each adapter key that opens is opened once and closed once, any other neither |
| Windows.Append | tuntap-windows.c:147-150 | growing the array keeps it null-terminated, with the new string in the sentinel's place |
| Windows.Device.Start | tuntap-windows.c:168-224 | for modes 1 and 5 alone: the device keeps the handle of the first candidate whose path, `\\.\Global\` before the id and `.tap` after it, opens, and no other handle; every string is freed once |
| CppOwnership.TunTap.Construct | bindings/cpp/tuntap++.cc:6-18 | a throwing constructor disposes of the device it already made: releases it if bit 2 of the mode is set and destroys it otherwise |
| CppOwnership.AcceptedModes | bindings/cpp/tuntap++.cc:9-14 | the constructor takes exactly the modes whose three low bits are 1, 2, 5 or 6, and ids from 0 to 257 |
| CppOwnership.TunTap.Move | bindings/cpp/tuntap++.cc:20-24 | the new wrapper takes the device and the disposal choice together, and leaves an empty one |
| CppOwnership.TunTap.Destruct | bindings/cpp/tuntap++.hh:55-76 | a null pointer is left alone, a persistent device released, any other destroyed |
| CppOwnership.Perform | bindings/cpp/tuntap++.cc:6-30 | what a program does with any number of wrapper objects is one step of a trace, so the theorems about traces are about the code |
| CppOwnership.StepConserves | bindings/cpp/tuntap++.cc:6-30 | every step keeps each device in exactly one place, and every disposal as the mode of its construction demands |
| CppOwnership.Ownership | bindings/cpp/tuntap++.cc:6-30 | in any trace a device has at most one owner and is disposed of at most once, exactly once when unowned and not dropped; it is released if bit 2 of the mode of its own constructor call is set, and destroyed otherwise |
| CppOwnership.NothingIsForgotten | bindings/cpp/tuntap++.hh:76 | when every wrapper is gone, every device was disposed of once or dropped by release() |

## Left out

- The calls of the operating systems themselves: each is a method of a kernel model that may fail. The Linux model stores requested flags as given, reads fifteen bytes of a name, and takes new names literally; FreeBSD reports EEXIST only for a unit that exists.
- Packets, read and write, timeouts, MTU, descriptions, debug and nonblocking modes, versions and the log callback: forwarding calls with no state of their own.
- `inet_pton`, `ether_aton`, `sscanf`, `random`: library code; their results are arbitrary inputs.
- IPv4 netmasks from 33 to 128: accepted by the code, but the shift is then undefined in C.
- The printed checksum line: its buffer cuts eight-digit results; the value is modelled.
- Agreement of the cached and the real link-layer address after a failed change: the cache is written first.
- IPv4 and IPv6 address requests of each system: straight-line requests with no state kept.
- Darwin, NetBSD and the BSD stubs: the same scan again, or constants.
- The control socket of an OpenBSD start, its unit given by number, its persistent creation and its address read: the scan and what follows it are modelled.
- Allocation failure in `tuntap_init`, `malloc`, `realloc` and `strdup`: the code does not check most of them.
- Windows.Device.Start: requires that the registry query succeeds, because the code follows the null pointer it gets otherwise; an instance id too long for the path buffer is not modelled.
- The empty list that a failed registry query on Windows does not free: the heap model holds the strings, not the arrays.
- FreeBsdRuns.DestroyHitsItsOwn: flags and addresses are left to the environment, so the device's own up, down and address calls are covered as changes from elsewhere.
