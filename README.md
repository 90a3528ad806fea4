# Ananas: page faults, AT keyboard, ACPI SMP, devfs and libc start-up in Dafny

This project models, in Dafny, a handful of core routines of the Ananas
operating system and its C library, and proves what they promise.

- **Page-fault handling** (`vmfault.dfy`, module `VmFault`). The kernel
  resolves a fault at a virtual address `virt`. It finds the first area that
  holds `virt`. A write fault on a copy-on-write page gets a private copy of
  that page. A first fault in a file-backed region gets the page through the
  shared page cache, keyed by inode and file offset. That page is linked
  1-on-1 when four conditions hold: it lies wholly inside the region, the
  file offset is page aligned, no bytes are skipped on the area's first
  page, and the area is not private. Otherwise the page is copied
  privately. Every other first fault gets a fresh zero-filled page. The pure
  decision is the function `Decide`. The page store (`PageStore`) and the
  address space (`VmSpace`) are classes whose methods update the page table,
  the cache, the frames and the MMU mappings.
- **AT keyboard driver** (`atkbd.dfy`, module `AtKeyboard`). Scancodes are
  decoded into modifier flags and characters. Shift, Control and Alt are
  tracked, break codes are handled, and Control+Alt+Delete reboots. `Step`
  and `Run` are the specification; `ATKeyboard.OnIRQ` is the imperative
  loop proved against them.
- **ACPI multiprocessor configuration** (`acpi_smp.dfy`, module `AcpiSmp`).
  The MADT is walked twice. The first walk counts the processors and the I/O
  APICs. The second fills the tables allocated for them, after the ISA
  interrupts have been identity-mapped. Interrupt source overrides then
  reroute them.
- **Device file system** (`devfs.dfy`, module `DevFs`). This covers the
  listing of the root directory (one record per device, named
  `<name><unit>`), the resumable directory cursor, inode attributes and
  mounting.
- **C library** (`vsscanf.dfy`, `libc_init.dfy`, `stdio_stream.dfy`):
  - the matching loop of `vsscanf`;
  - the start-up code that turns the argument and environment blocks the
    kernel hands a process into `argv`, `argc` and `environ`;
  - `_PDCLIB_seek` and `fgetc` on the buffer bookkeeping of a stream.

Numbers are unbounded in the model. Where the source's 32-bit `size_t`
arithmetic matters (the load length of a page beyond the end of a file), it
is written out modulo 2^32.

## Model

| member | source | states |
|---|---|---|
| VmFault.PageBase | kernel/vm/vmfault.cpp:139-140 | the page base is page aligned and is the greatest such address not above `virt` |
| VmFault.FirstArea | kernel/vm/vmfault.cpp:92-94 | the area index found lies in the list and the area holds the address |
| VmFault.FirstAreaMeaning | kernel/vm/vmfault.cpp:92-94 | the walk returns the first area in list order that holds the address, and none exactly when no area holds it |
| VmFault.FlagsFromVa | kernel/vm/vmfault.cpp:38-46 | a page is READONLY exactly when its area may be read but not written; no other page flag is set |
| VmFault.VfsRead | kernel/vm/vmfault.cpp:26-31 | a read from an offset delivers at most the bytes asked for |
| VmFault.ReadData | kernel/vm/vmfault.cpp:19-36 | a successful read delivers exactly the requested length, namely the file's bytes from the offset; failure means an I/O error or a short read |
| VmFault.LoadLengthClamp | kernel/vm/vmfault.cpp:67-71 | a page inside the file is loaded in full, or up to the end of the file, and never beyond a page |
| VmFault.LoadLengthBeyondEnd | kernel/vm/vmfault.cpp:67-71 | for a page beyond the end of the file, the 32-bit subtraction wraps to a length of at least a page |
| VmFault.LoadPage | kernel/vm/vmfault.cpp:67-75 | a device error fails the load; inside the file the load delivers the file's bytes up to a page; beyond the end it fails as a short read |
| VmFault.LoadFits | kernel/vm/vmfault.cpp:67-75 | a successful load delivers at most one page |
| VmFault.Fill | kernel/vm/vmfault.cpp:63-75 | a new frame after a read holds the bytes read, followed by what the allocator left |
| VmFault.CopyInto | kernel/vm/vmfault.cpp:165-173 | `len` bytes from the source offset land at the destination offset; every other destination byte is kept |
| VmFault.Zeros | kernel/vm/vmfault.cpp:215-225 | a page of zero bytes |
| VmFault.Refault | kernel/vm/vmfault.cpp:100-112 | on a mapped page, the fault is promoted exactly for a write to a COW page and refused otherwise |
| VmFault.Assertions | kernel/vm/vmfault.cpp:97-117 | the kernel halts for an area without FAULT and for a misaligned file offset, and only for those reasons |
| VmFault.FileOrZero | kernel/vm/vmfault.cpp:120-225 | a first fault zero-fills exactly when the area has no file or the page lies beyond the backed length; otherwise it is served from the file |
| VmFault.LinkExactly | kernel/vm/vmfault.cpp:151-159 | the cached page is linked exactly when it lies wholly in the backed region, has no skip and the area is not private |
| VmFault.CopyExtent | kernel/vm/vmfault.cpp:162-173 | the private copy takes a whole page from offset 0, except on the first page of an area with a skip, where it starts at the skip |
| VmFault.SkipPanicsAfterFirstPage | kernel/vm/vmfault.cpp:175-202 | in an area with a skip and more than a page of file, a copy panics exactly on the pages after the first |
| VmFault.ExampleTenByteFile | kernel/vm/vmfault.cpp:139-173 | a 10-byte file mapped read-only at offset 0 is copied privately; the page holds the file and then the frame's junk |
| VmFault.ReadOff | kernel/vm/vmfault.cpp:139-141 | the page offset in the area is page aligned and leads to the page holding the address |
| VmFault.PageStore.AllocFrame | kernel/vm/vmfault.cpp:63-65 | a new frame holding the junk is added; nothing else changes |
| VmFault.PageStore.CreateShared | kernel/vm/vmfault.cpp:52-56 | a new PENDING page without a frame is entered in the cache under its key |
| VmFault.PageStore.CreatePrivate | kernel/vm/vmfault.cpp:162 | a new page with the given flags and a new frame of its own; the cache is unchanged |
| VmFault.PageStore.Link | kernel/vm/vmfault.cpp:159 | a new page links to the shared page and shares its flags and frame |
| VmFault.PageStore.Promote | kernel/vm/vmfault.cpp:101-108 | a new private page whose new frame holds the contents of the source page |
| VmFault.PageStore.CopyExtended | kernel/vm/vmfault.cpp:165-173 | the destination frame becomes `CopyInto` of the two frames; all other frames are kept |
| VmFault.PageStore.Zero | kernel/vm/vmfault.cpp:215-225 | the page's frame becomes all zeros |
| VmFault.PageStore.SetVaddr | kernel/vm/vmfault.cpp:206 | only the page's `vp_vaddr` changes |
| VmFault.PageStore.Complete | kernel/vm/vmfault.cpp:77-80 | the frame holds the contents, and the page owns it and is no longer PENDING |
| VmFault.PageStore.Load | kernel/vm/vmfault.cpp:62-80 | a load is recorded; a failed read is returned as its error; otherwise the page holds `Fill` of the bytes read and is no longer PENDING; other pages and frames are kept |
| VmFault.PageStore.GetDentryBackedPage | kernel/vm/vmfault.cpp:48-81 | a loaded cached page is returned with nothing changed; otherwise the page (created PENDING with the area's flags when missing) is read, and a found page is loaded and cached under its key |
| VmFault.VmSpace.Attach | kernel/vm/vmfault.cpp:206 | setting `vp_vaddr` enters the page in the area's page list at the slot |
| VmFault.VmSpace.Map | kernel/vm/vmfault.cpp:209 | the page's frame is mapped at its `vp_vaddr` |
| VmFault.VmSpace.PromoteAt | kernel/vm/vmfault.cpp:100-108 | the slot now holds a new installed private page with the same contents; other slots, mappings, pages and frames are unchanged |
| VmFault.VmSpace.ZeroFillAt | kernel/vm/vmfault.cpp:215-225 | the slot holds a new installed private page of zeros; the cache, other slots, mappings, pages and frames are unchanged |
| VmFault.VmSpace.Install | kernel/vm/vmfault.cpp:206-210 | the page is entered at the slot and mapped there, and only that mapping changes; frames and cache are kept |
| VmFault.VmSpace.CopyPrivate | kernel/vm/vmfault.cpp:161-202 | a new private page holds the planned part of the shared page; reports exactly when the kernel would panic over the skip |
| VmFault.VmSpace.ServeLoaded | kernel/vm/vmfault.cpp:148-211 | the panic case is reported; otherwise the slot holds an installed new page that is a link sharing the frame or a private copy of the planned part, as `Decide` plans; other slots, mappings, pages and frames are unchanged |
| VmFault.VmSpace.FromFile | kernel/vm/vmfault.cpp:139-211 | a failed load and a panicking copy halt; otherwise the cache holds the loaded page (read once, or as it was when already loaded) and the slot an installed link or copy; other slots, mappings, pages and frames are unchanged |
| VmFault.VmSpace.HandleFault | kernel/vm/vmfault.cpp:85-229 | an address outside all areas, and a refault that is not a COW write, give BAD_ADDRESS and change nothing; halts, promotions, zero fills and file-backed faults give the state `Decide` plans, changing only the faulting slot, its mapping and new pages and frames (plus the cached page a file-backed fault loads) |
| AtKeyboard.RunFrom | kernel/dev/x86/atkbd.cpp:96-144 | a batch is its first scancode's effect followed by the rest, unless that scancode reboots |
| AtKeyboard.NextScancode | kernel/dev/x86/atkbd.cpp:96-144 | one turn of the handler's loop keeps the characters delivered so far a prefix of the batch's output |
| AtKeyboard.ModifierKey | kernel/dev/x86/atkbd.cpp:101-126 | a modifier key emits nothing; its press sets its flag, its release clears it, and other flags are kept |
| AtKeyboard.ShiftKeysShareFlag | kernel/dev/x86/atkbd.cpp:101-108 | left and right shift drive the same flag; releasing one clears it even while the other was pressed |
| AtKeyboard.ReleaseIgnored | kernel/dev/x86/atkbd.cpp:125-126 | the release of any other key changes nothing and emits nothing |
| AtKeyboard.RebootCombination | kernel/dev/x86/atkbd.cpp:137-138 | reboot happens exactly on Delete while the flags are Control and Alt |
| AtKeyboard.CharacterKey | kernel/dev/x86/atkbd.cpp:140-142 | a key press emits the entry of the shifted or unshifted table by shift state, and nothing when the entry is NUL |
| AtKeyboard.FlagsStayModifiers | kernel/dev/x86/atkbd.cpp:60-62 | only the three modifier bits are ever set |
| AtKeyboard.NoNulHandedOn | kernel/dev/x86/atkbd.cpp:140-142 | no NUL is ever handed to the keyboard multiplexer |
| AtKeyboard.RunAppend | kernel/dev/x86/atkbd.cpp:96-144 | scancodes split over two interrupts decode as in one |
| AtKeyboard.ExampleShiftedLetter | kernel/dev/x86/atkbd.cpp:20-57 | shift + A gives 'A', and A after the release of shift gives 'a' |
| AtKeyboard.ExampleReboot | kernel/dev/x86/atkbd.cpp:110-138 | Control, Alt, Delete reboot, and later scancodes are not decoded |
| AtKeyboard.ATKeyboard.Attach | kernel/dev/x86/atkbd.cpp:146-167 | without an I/O range or an IRQ, NO_RESOURCE with nothing changed; otherwise the port is kept, the flags are cleared and the IRQ result is returned |
| AtKeyboard.ATKeyboard.OnIRQ | kernel/dev/x86/atkbd.cpp:96-144 | the delivered characters, the flags and the reboot are exactly those `Run` gives for the pending scancodes |
| AtKeyboard.ATKeyboard.Scancode | kernel/dev/x86/atkbd.cpp:99-143 | one scancode's effect as `Step` gives it |
| AcpiSmp.WalkVisitsSubtables | kernel/arch/i386/acpi-smp.c:34-45 | the walk visits a prefix of the subtables in table order |
| AcpiSmp.PassesAgree | kernel/arch/i386/acpi-smp.c:34-103 | the filling walk writes exactly as many processors and I/O APICs as the counting walk counted |
| AcpiSmp.Identity | kernel/arch/i386/acpi-smp.c:65-71 | one routing entry per ISA interrupt |
| AcpiSmp.Routing | kernel/arch/i386/acpi-smp.c:104-122 | overrides keep one routing entry per ISA interrupt |
| AcpiSmp.RoutingMeaning | kernel/arch/i386/acpi-smp.c:65-122 | interrupt n goes to the pin of its last override, or to pin n; it loses its bus exactly when another interrupt was rerouted onto its pin |
| AcpiSmp.DisplacedStep | kernel/arch/i386/acpi-smp.c:104-122 | how one more override changes the destination and displacement |
| AcpiSmp.ValidTargets | kernel/arch/i386/acpi-smp.c:107-111 | the overrides of a valid table target ISA pins |
| AcpiSmp.SmpConfig.Init | kernel/arch/i386/acpi-smp.c:17-127 | no MADT: NO_DEVICE, nothing touched; wrong LAPIC base: panic; otherwise BSP id is the top byte, the tables have the counted sizes, and success exactly when all overrides name ISA interrupts, with processors, I/O APICs and routing filled in |
| AcpiSmp.SmpConfig.CountEntries | kernel/arch/i386/acpi-smp.c:34-45 | the counts grow by the processors and I/O APICs of the table |
| AcpiSmp.IdentityMap | kernel/arch/i386/acpi-smp.c:65-71 | the routing table becomes the identity map |
| AcpiSmp.FillEntries | kernel/arch/i386/acpi-smp.c:74-124 | success exactly when every override names an ISA interrupt, and then the tables hold the processors, I/O APICs and routing |
| AcpiSmp.FillNext | kernel/arch/i386/acpi-smp.c:74-124 | one subtable of the filling walk keeps the tables equal to those of the visited prefix |
| AcpiSmp.FillEntry | kernel/arch/i386/acpi-smp.c:79-122 | a processor, I/O APIC or override is written, and an override of a non-ISA interrupt stops the walk |
| AcpiSmp.OverridesSnoc | kernel/arch/i386/acpi-smp.c:104-111 | appending an in-range override keeps all overrides in range |
| AcpiSmp.WalkAdvance | kernel/arch/i386/acpi-smp.c:74-78 | the walk steps to the next subtable by its length |
| AcpiSmp.WalkFillStep | kernel/arch/i386/acpi-smp.c:74-124 | the next step of the walk keeps the prefix counts within the totals |
| AcpiSmp.CountsMonotone | kernel/arch/i386/acpi-smp.c:34-45 | the counts of a prefix are at most those of the whole table |
| AcpiSmp.CountsSnoc | kernel/arch/i386/acpi-smp.c:34-103 | the counts and lists grow by the appended entry only |
| AcpiSmp.CountsSnocCounts | kernel/arch/i386/acpi-smp.c:34-45 | the counts grow by one for an entry of their kind |
| AcpiSmp.LapicIdsSnoc | kernel/arch/i386/acpi-smp.c:79-87 | the processor list grows by a local APIC entry only |
| AcpiSmp.IoApicsSnoc | kernel/arch/i386/acpi-smp.c:88-103 | the I/O APIC list grows by an I/O APIC entry only |
| DevFs.RecordLength | kernel/fs/devfs.c:56-60 | a record is longer than its name |
| DevFs.DecimalDigits | kernel/fs/devfs.c:55 | the unit number prints as at least one digit, and digits only |
| DevFs.DigitRoundTrip | kernel/fs/devfs.c:55 | a digit reads back as its value |
| DevFs.DecimalRoundTrip | kernel/fs/devfs.c:55 | the printed unit number reads back as the number |
| DevFs.Skipped | kernel/fs/devfs.c:48-51 | the cursor skips its offset in devices, or all of them |
| DevFs.FillStep | kernel/fs/devfs.c:53-63 | a record that fits is emitted and the listing continues after it |
| DevFs.FillAdvance | kernel/fs/devfs.c:53-63 | one turn of the loop keeps the records and bytes so far a prefix of the listing |
| DevFs.FillEntries | kernel/fs/devfs.c:53-63 | the k-th record names device idx + k with inode number inum + k |
| DevFs.FillWritten | kernel/fs/devfs.c:56-66 | the byte count is the sum of the record lengths and fits the buffer |
| DevFs.FillStops | kernel/fs/devfs.c:53-63 | the listing stops only when the devices run out or the next record does not fit |
| DevFs.ReaddirResumes | kernel/fs/devfs.c:42-67 | a later read resumes at the device where an earlier one stopped |
| DevFs.DevfsFile.ReaddirRoot | kernel/fs/devfs.c:42-67 | the records and bytes are `Readdir` of the cursor, and the cursor advances by the records returned |
| DevFs.DevfsFile.Read | kernel/fs/devfs.c:74-79 | reading is not implemented: EIO |
| DevFs.DevfsFile.Write | kernel/fs/devfs.c:81-86 | writing is not implemented: EIO |
| DevFs.ModeMeaning | kernel/fs/devfs.c:99-113 | every inode is world-readable and not writable; the root alone is a directory and searchable |
| DevFs.Inode.constructor | kernel/fs/devfs.c:24-33 | a new inode with no operations |
| DevFs.Inode.ReadInode | kernel/fs/devfs.c:93-115 | inode number, mode, link count, owner, size, times and operations as set for the fsop |
| DevFs.MountedFs.Mount | kernel/fs/devfs.c:117-125 | block and fsop sizes fixed; a fresh root inode is a directory with the root operations |
| Vsscanf.SkipSpace | lib/libc/stdio/vsscanf.c:34-43 | stops at the first non-space character, past only white space |
| Vsscanf.VScan | lib/libc/stdio/vsscanf.c:15-78 | the count and stored values are those of `Match` over the whole format |
| Vsscanf.SpaceSkipsRun | lib/libc/stdio/vsscanf.c:34-43 | white space in the format skips the whole input run, and an empty run is no failure |
| Vsscanf.MismatchStops | lib/libc/stdio/vsscanf.c:44-57 | a mismatched ordinary character ends the scan with the count so far |
| Vsscanf.MatchedPrefixThenMismatch | lib/libc/stdio/vsscanf.c:28-57 | a whole scan that matches k ordinary characters and then mismatches returns 0, having consumed k characters and stored nothing |
| Vsscanf.DeclinedPercentIsLiteral | lib/libc/stdio/vsscanf.c:31-57 | a `%` the engine declines is matched verbatim |
| Vsscanf.InputErrorResult | lib/libc/stdio/vsscanf.c:62-71 | an input error returns EOF before any conversion, and the count otherwise |
| Vsscanf.LiteralRun | lib/libc/stdio/vsscanf.c:44-57 | k matching ordinary characters advance position and count by k |
| Vsscanf.LiteralsKeepCount | lib/libc/stdio/vsscanf.c:28-75 | a format without `%` stores nothing and keeps the count |
| Vsscanf.TestScannerProgresses | lib/libc/stdio/vsscanf.c:82-100 | the stand-in engine resumes after the `%` or declines |
| Vsscanf.ExampleExactLiteral | lib/libc/stdio/vsscanf.c:91-92 | `sscanf("abcdef", "abcdef%n")` returns 0 and stores 6 |
| Vsscanf.TestTrailingCount | lib/libc/stdio/vsscanf.c:91-98 | a trailing `%n` stores the consumed count and ends the scan |
| Vsscanf.ExampleSpaceRun | lib/libc/stdio/vsscanf.c:93-94 | `sscanf("abc  def", "abc def%n")` returns 0 and stores 8 |
| Vsscanf.ExampleEmptySpaceRun | lib/libc/stdio/vsscanf.c:95-96 | `sscanf("abcdef", "abc def%n")` returns 0 and stores 6 |
| Vsscanf.ExamplePercentLiteral | lib/libc/stdio/vsscanf.c:97-98 | `sscanf("abc%def", "abc%%def%n")` returns 0 and stores 7 |
| LibcInit.StrEnd | lib/libc/platform/ananas/ananas/init.c:20 | `strchr(p, '\0')` finds a NUL at or after p |
| LibcInit.StrEndIsFirst | lib/libc/platform/ananas/ananas/init.c:20 | that NUL is the first one |
| LibcInit.ArgStarts | lib/libc/platform/ananas/ananas/init.c:17-38 | every stored pointer points at a non-empty string inside the block; none when the list starts empty |
| LibcInit.NextInside | lib/libc/platform/ananas/ananas/init.c:17-25 | the scan never leaves a terminated block |
| LibcInit.ArgStartsStep | lib/libc/platform/ananas/ananas/init.c:17-25 | a non-empty string contributes its own start |
| LibcInit.ArgStartsChain | lib/libc/platform/ananas/ananas/init.c:29-38 | each pointer is just past the NUL of the string before it |
| LibcInit.ListEnd | lib/libc/platform/ananas/ananas/init.c:21-22 | the list ends at an empty string inside the block |
| LibcInit.SplitRoundTrip | lib/libc/platform/ananas/ananas/init.c:13-43 | joining the strings with their NULs gives back the block up to the end of the list |
| LibcInit.SplitStep | lib/libc/platform/ananas/ananas/init.c:17-38 | the inductive step of the round trip |
| LibcInit.SplitUnfold | lib/libc/platform/ananas/ananas/init.c:17-38 | the first string comes off the front of the list |
| LibcInit.StringsMatchStarts | lib/libc/platform/ananas/ananas/init.c:29-38 | one non-empty, NUL-free string per pointer |
| LibcInit.EmptyBlock | lib/libc/platform/ananas/ananas/init.c:21-22 | a block that starts with NUL holds no argument |
| LibcInit.InitializeArg | lib/libc/platform/ananas/ananas/init.c:13-43 | a new array holds a pointer to every string then NULL; the count is returned only when asked for |
| LibcInit.Libc.ReinitEnviron | lib/libc/platform/ananas/ananas/init.c:45-51 | the old environment array is freed and a new one points at the strings of the environment block |
| LibcInit.Libc.Init | lib/libc/platform/ananas/ananas/init.c:53-61 | the process information is kept; `argv`, `argc` and `environ` are built from its blocks |
| StdioStream.Os.Lseek | lib/libc/_pdclib/seek.c:30 | the request is logged and answered |
| StdioStream.Stream.Seek | lib/libc/_pdclib/seek.c:16-54 | a bad `whence` gives EINVAL and EOF without asking the system; success empties both buffers and records the new offset; failure sets EUNKNOWN and leaves the stream unchanged |
| StdioStream.Stream.Fgetc | lib/libc/stdio/fgetc.c:15-26 | EOF when the stream cannot be read; otherwise, while the unget index is positive, the slot of `ungetbuf` at the current index is taken ahead of the read buffer and the index drops by one; then the buffered character |
| StdioStream.UngetAsWritten | lib/libc/stdio/fgetc.c:21-24 | the unget read as written: the slot at the index, None when it lies outside the buffer |
| StdioStream.AsWrittenReadsPastPushedBack | lib/libc/stdio/fgetc.c:23 | with one character pushed back, the read as written leaves a one-slot buffer, and in a larger one returns a slot that was never pushed back |
| StdioStream.UngetIntended | lib/libc/stdio/fgetc.c:21-24 | the corrected unget read: the last pushed-back character |
| StdioStream.UngetIntendedIsLifo | lib/libc/stdio/fgetc.c:21-24 | the corrected read returns the last pushed-back character and keeps the others pushed back |
| StdioStream.Stream.FgetcIntended | lib/libc/stdio/fgetc.c:15-26 | as `Fgetc`, but the unget read takes the last pushed-back character, last in first out, and keeps the rest |

## Left out

- Locking, reference counts and concurrency of the page store, the address space and the device queue are not modelled; each operation runs alone.
- `vfs_seek` and `vfs_read` are modelled as reading the file's bytes up to its end; `ioError` stands for a failing device.
- Running out of memory is not modelled: the kernel asserts that page allocation succeeds, and the failure of `vfs_make_inode` in `devfs_alloc_inode` (kernel/fs/devfs.c:27-29) is not modelled either.
- VmFault.VmSpace.HandleFault: one `junk` value stands for the prior contents of every frame allocated during a fault, so a loaded shared frame and a private copy's frame start from the same bytes.
- A newly allocated frame holds arbitrary bytes (`junk`). The tail of a short read is not zeroed, because the code does not zero it.
- `kmem_unmap` of the temporary kernel mapping is not modelled.
- Areas are assumed well formed (`WellFormed`): page aligned, with a skip below a page. Addresses are unbounded and MMU protection bits are not modelled.
- VmFault.Load: a failed read is returned as an error; the kernel asserts it cannot happen and the model does not halt.
- AtKeyboard: port I/O (`inb`) is not modelled; the pending scancodes are given as a sequence.
- AtKeyboard: `irq_register`'s result is a parameter, and the flushing `inb` in Attach is not modelled.
- AtKeyboard: the kernel debugger hook (`OPTION_KDB`, lines 128-135) is not modelled.
- AtKeyboard: `md_reboot` ends the batch; nothing after it is modelled.
- `Detach` only panics and is not modelled.
- AtKeyboard.Step and the lemmas about it take the two translation tables as a parameter (`Keymaps`). They hold for any pair of 128-entry tables; the driver uses the source's tables.
- AcpiSmp: local APIC register access, `vm_map_device`, `vm_map_kernel`, `ioapic_register` and `kprintf` are not modelled. `AcpiGetTable` becomes an `Option` parameter and the APIC id register a `bv32` parameter.
- AcpiSmp.SmpConfig.Init requires `ValidMadt`: every subtable has a positive length and every override's global interrupt is below 16. The kernel trusts the firmware here.
- DevFs: the directory cursor is kept in a local during the loop and stored once at the end. This has the same effect as the source's updates.
- DevFs: `vfs_filldirent` is modelled only by its size check; the record header size is a parameter.
- DevFs: the directory type is the traditional `S_IFDIR` value.
- DevFs: `devfs_destroy_inode`, `kmalloc`/`kfree` and `vfs_get_inode` are not modelled.
- DevFs: inode numbers do not wrap at 32 bits.
- DevFs: device names are assumed to fit the 128-byte `devname` buffer of `devfs_readdir_root` (kernel/fs/devfs.c:54-55); `DevName` has no length bound and an overflow is not modelled.
- DevFs.Inode.constructor: the private data of a devfs inode is not modelled.
- Vsscanf: the conversion engine `_PDCLIB_scan` is a parameter; only its resume position is constrained.
- StdioStream: the internals of `_PDCLIB_prepread` and of `lseek` are parameters.
- StdioStream.Stream.Fgetc: `Valid` assumes the unget index is at most the unget buffer size; where `ungetc` leaves the index is not part of this model. The result `0 <= c < 256 && c != EOF` rests on bytes being modelled as unsigned, while lib/libc/stdio/fgetc.c:25 returns the buffered `char` without an `(unsigned char)` cast.
- StdioStream.Stream.Seek: the errno translation disabled by `#if 0` in seek.c is not modelled.
- The signedness of `char` is not modelled: characters are Dafny `char`s and bytes are naturals below 256.

## Findings

| source | as written | input that shows it | evidently intended | confidence | as-written member | corrected member |
|---|---|---|---|---|---|---|
| lib/libc/stdio/fgetc.c:23 | the pushed-back character is read as `ungetbuf[ungetidx--]`, the slot at the index before it drops | one character pushed back, so the unget index is 1: a one-slot unget buffer is read past its end, and a larger one yields the slot above the pushed-back character | `ungetbuf[--ungetidx]`, the last pushed-back character | not executed; rests on `ungetc` storing at `ungetbuf[ungetidx++]`, which is not part of this model | StdioStream.Stream.Fgetc, StdioStream.UngetAsWritten, StdioStream.AsWrittenReadsPastPushedBack | StdioStream.Stream.FgetcIntended, StdioStream.UngetIntended, StdioStream.UngetIntendedIsLifo |
