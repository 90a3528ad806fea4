/** The page-fault resolver of the virtual memory system: given an address
    space, a faulting address and whether the access was a write, it finds the
    area holding the address and backs the page with a copy-on-write
    promotion, a page of the shared file cache (linked directly or copied
    privately), or a fresh zero-filled page.

    The model has two parts. The decision logic is pure: which area, which
    plan, how many bytes are loaded and copied from where. The resolver
    itself is imperative: a `PageStore` holds the kernel's VM page records
    (indexed by page id, standing for the `VM_PAGE` pointer), the shared page
    cache keyed by (inode, file offset) and the physical frames; a `VmSpace`
    holds its area list, the per-area page lists indexed by `vp_vaddr` and the
    installed translations. The helpers whose source is not part of this
    model (`vmpage_create_*`, `vmpage_link`, `vmpage_promote`,
    `vmpage_copy_extended`, `vmpage_zero`, `vmpage_map`, the VFS read) are
    methods with the contract their use in the fault path relies on.

    Kernel assertions and panics are a distinguished `Fatal` result: the
    kernel halts, and the state it leaves behind is not specified. */
module VmFault {

  type byte = x: int | 0 <= x < 256

  const PAGE_SIZE: nat := 4096

  /** `size_t` is 32 bits wide on i386. */
  const SIZE_T_MODULUS: nat := 0x1_0000_0000

  datatype Option<T> = None | Some(value: T)

  /** The `va_flags` bits the fault path looks at. */
  datatype AreaFlags = AreaFlags(read: bool, write: bool, fault: bool, private: bool)

  /** The `vp_flags` bits: PENDING, READONLY, COW and PRIVATE. */
  datatype PageFlags = PageFlags(pending: bool, readonly: bool, cow: bool, private: bool)

  /** A directory entry and its inode: the inode number and the file's bytes
      (`st_size` is their count). */
  datatype Dentry = Dentry(inode: nat, data: seq<byte>)

  /** A `vmarea_t`: the virtual range `[virt, virt + len)`, its flags, the
      optional backing dentry, the file offset the backed region starts at,
      the length of the backed region and the number of bytes skipped at the
      start of the first page. */
  datatype Area = Area(virt: nat, len: nat, flags: AreaFlags, dentry: Option<Dentry>,
                       doffset: nat, dlength: nat, dvskip: nat)

  /** What the mapping code guarantees of every area: it starts on a page
      boundary and skips less than one page. */
  predicate WellFormed(a: Area)
  {
    a.virt % PAGE_SIZE == 0 && a.dvskip < PAGE_SIZE
  }

  predicate Contains(a: Area, virt: nat)
  {
    a.virt <= virt < a.virt + a.len
  }

  /** `virt & ~(PAGE_SIZE - 1)`. */
  function PageBase(virt: nat): (p: nat)
    ensures p % PAGE_SIZE == 0 && p <= virt < p + PAGE_SIZE
  {
    virt - virt % PAGE_SIZE
  }

  /** The area list walk: the index of the first area from `from` on that
      holds `virt`. */
  function FirstArea(areas: seq<Area>, virt: nat, from: nat): (r: Option<nat>)
    requires from <= |areas|
    ensures r.Some? ==> from <= r.value < |areas| && Contains(areas[r.value], virt)
    decreases |areas| - from
  {
    if from == |areas| then None
    else if Contains(areas[from], virt) then Some(from)
    else FirstArea(areas, virt, from + 1)
  }

  /** The walk finds the first area in list order that holds the address, and
      finds none exactly when no area holds it. */
  lemma {:induction false} FirstAreaMeaning(areas: seq<Area>, virt: nat, from: nat)
    requires from <= |areas|
    ensures FirstArea(areas, virt, from).Some? ==>
      var i := FirstArea(areas, virt, from).value;
      from <= i < |areas| && Contains(areas[i], virt) &&
      forall j :: from <= j < i ==> !Contains(areas[j], virt)
    ensures FirstArea(areas, virt, from).None? <==>
      forall j :: from <= j < |areas| ==> !Contains(areas[j], virt)
    decreases |areas| - from
  {
    if from < |areas| && !Contains(areas[from], virt) {
      FirstAreaMeaning(areas, virt, from + 1);
    }
  }

  /** `vmspace_page_flags_from_va`: pages of an area that may be read but not
      written are read-only; no other flag is derived from the area. */
  function FlagsFromVa(f: AreaFlags): (r: PageFlags)
    ensures r.readonly <==> f.read && !f.write
    ensures !r.pending && !r.cow && !r.private
  {
    PageFlags(false, f.read && !f.write, false, false)
  }

  // ---------------------------------------------------------------------
  // Loading a page of a file

  datatype ReadError = IoError | ShortRead

  datatype ReadResult = ReadOk(bytes: seq<byte>) | ReadErr(err: ReadError)

  function Min(a: int, b: int): int
  {
    if a <= b then a else b
  }

  /** What `vfs_seek` followed by `vfs_read` delivers from a file: up to
      `len` bytes from `offset`, none past the end of the file. */
  function VfsRead(data: seq<byte>, offset: nat, len: nat): (got: seq<byte>)
    ensures |got| <= len
  {
    if offset >= |data| then [] else data[offset..Min(|data|, offset + len)]
  }

  /** `read_data`: a failed read, or one that delivers fewer bytes than
      asked for (SHORT_READ), is an error. `ioError` stands for a failure of
      the device below the file system. */
  function ReadData(data: seq<byte>, offset: nat, len: nat, ioError: bool): (r: ReadResult)
    ensures r.ReadOk? ==> |r.bytes| == len && r.bytes == VfsRead(data, offset, len)
    ensures r.ReadErr? ==> ioError || |VfsRead(data, offset, len)| < len
  {
    if ioError then ReadErr(IoError)
    else
      var got := VfsRead(data, offset, len);
      if |got| != len then ReadErr(ShortRead) else ReadOk(got)
  }

  /** The length `vmspace_get_dentry_backed_page` asks for: a page, or what
      is left of the file when the page runs past its end. The shortened
      length is `st_size - read_off` converted to `size_t`, so it wraps when
      the offset lies beyond the end of the file. */
  function LoadLength(fileOff: nat, size: nat): nat
  {
    if fileOff + PAGE_SIZE > size then (size - fileOff) % SIZE_T_MODULUS else PAGE_SIZE
  }

  /** A page inside the file is loaded in full; a page that runs past the end
      is clamped to the bytes that remain. */
  lemma LoadLengthClamp(fileOff: nat, size: nat)
    requires fileOff <= size
    ensures LoadLength(fileOff, size) == Min(PAGE_SIZE, size - fileOff)
    ensures LoadLength(fileOff, size) <= PAGE_SIZE
  {
  }

  /** A page that starts beyond the end of the file asks for the wrapped
      difference: more than a page whenever the distance past the end is
      between one and `2^32 - PAGE_SIZE` bytes. */
  lemma LoadLengthBeyondEnd(fileOff: nat, size: nat)
    requires size < fileOff && fileOff - size <= SIZE_T_MODULUS - PAGE_SIZE
    ensures LoadLength(fileOff, size) == SIZE_T_MODULUS - (fileOff - size)
    ensures LoadLength(fileOff, size) >= PAGE_SIZE
  {
  }

  /** The load of one page at `fileOff` of the file `d`: a device error is
      fatal; inside the file it delivers the file's bytes from `fileOff` up to
      a page or the end of the file; beyond the end of the file it is a short
      read unless the wrapped length happens to be zero. */
  lemma {:induction false} LoadPage(d: Dentry, fileOff: nat, ioError: bool)
    ensures ioError ==> ReadData(d.data, fileOff, LoadLength(fileOff, |d.data|), ioError) == ReadErr(IoError)
    ensures !ioError && fileOff <= |d.data| ==>
      ReadData(d.data, fileOff, LoadLength(fileOff, |d.data|), ioError)
        == ReadOk(d.data[fileOff..Min(|d.data|, fileOff + PAGE_SIZE)])
    ensures !ioError && fileOff > |d.data| && (fileOff - |d.data|) % SIZE_T_MODULUS != 0 ==>
      ReadData(d.data, fileOff, LoadLength(fileOff, |d.data|), ioError) == ReadErr(ShortRead)
  {
    var size := |d.data|;
    if !ioError && fileOff <= size {
      LoadLengthClamp(fileOff, size);
      if fileOff < size {
        assert VfsRead(d.data, fileOff, LoadLength(fileOff, size)) == d.data[fileOff..Min(size, fileOff + PAGE_SIZE)];
      }
    }
    if !ioError && fileOff > size && (fileOff - size) % SIZE_T_MODULUS != 0 {
      assert LoadLength(fileOff, size) != 0;
    }
  }

  /** A successful load never delivers more than a page. */
  lemma LoadFits(data: seq<byte>, fileOff: nat, ioError: bool)
    ensures ReadData(data, fileOff, LoadLength(fileOff, |data|), ioError).ReadOk? ==>
      |ReadData(data, fileOff, LoadLength(fileOff, |data|), ioError).bytes| <= PAGE_SIZE
  {
    if fileOff <= |data| {
      LoadLengthClamp(fileOff, |data|);
    }
  }

  /** A freshly allocated frame after a read of `bytes` into it: the bytes
      read, then whatever the allocator left in the rest of the page. */
  function Fill(bytes: seq<byte>, junk: seq<byte>): (page: seq<byte>)
    requires |bytes| <= PAGE_SIZE == |junk|
    ensures |page| == PAGE_SIZE && page[..|bytes|] == bytes
    ensures forall k :: |bytes| <= k < PAGE_SIZE ==> page[k] == junk[k]
  {
    bytes + junk[|bytes|..]
  }

  /** `vmpage_copy_extended`: `len` bytes of `src` from `srcOff` on land in
      `dst` from `dstOff` on; every other byte of `dst` stays. */
  function CopyInto(src: seq<byte>, dst: seq<byte>, len: nat, srcOff: nat, dstOff: nat): (r: seq<byte>)
    requires srcOff + len <= |src| && dstOff + len <= |dst|
    ensures |r| == |dst|
    ensures forall k :: dstOff <= k < dstOff + len ==> r[k] == src[srcOff + k - dstOff]
    ensures forall k :: 0 <= k < |dst| && !(dstOff <= k < dstOff + len) ==> r[k] == dst[k]
  {
    dst[..dstOff] + src[srcOff..srcOff + len] + dst[dstOff + len..]
  }

  function Zeros(): (z: seq<byte>)
    ensures |z| == PAGE_SIZE && forall k :: 0 <= k < PAGE_SIZE ==> z[k] == 0
  {
    seq(PAGE_SIZE, _ => 0)
  }

  // ---------------------------------------------------------------------
  // The decision taken for a fault

  datatype Panic = NotFaultArea | UnalignedDoffset | LoadFailed(err: ReadError) | UnalignedSkip

  datatype FaultResult = Success | BadAddress | Fatal(reason: Panic)

  /** What the fault path does once it has found the area. */
  datatype Plan =
    | Promote                                        // write to a copy-on-write page
    | Refuse                                         // re-fault on a page already mapped
    | Halt(reason: Panic)                            // a kernel assertion fails
    | LinkShared(fileOff: nat)                       // map the cached page as it is
    | CopyShared(fileOff: nat, srcOff: nat, len: nat) // private copy of part of the cached page
    | ZeroFill                                       // fresh anonymous page

  /** The three conditions under which a cached page may be used 1-on-1. */
  predicate CanReuse(a: Area, readOff: nat)
  {
    && readOff + PAGE_SIZE <= a.dlength
    && a.doffset % PAGE_SIZE == 0
    && (readOff >= PAGE_SIZE || a.dvskip == 0)
  }

  /** The decision of `vmspace_handle_fault` for area `a`, where `readOff`
      is the page's offset in the area and `existing` the flags of the page
      already mapped there, if any. */
  function Decide(a: Area, readOff: nat, write: bool, existing: Option<PageFlags>): Plan
    requires a.dvskip < PAGE_SIZE
  {
    if !a.flags.fault then Halt(NotFaultArea)
    else if existing.Some? then
      (if write && existing.value.cow then Promote else Refuse)
    else if a.doffset % PAGE_SIZE != 0 then Halt(UnalignedDoffset)
    else if a.dentry.Some? && readOff < a.dlength then
      var fileOff := readOff + a.doffset;
      if CanReuse(a, readOff) && !a.flags.private then LinkShared(fileOff)
      else if readOff < PAGE_SIZE && a.dvskip > 0 then CopyShared(fileOff, a.dvskip, PAGE_SIZE - a.dvskip)
      else CopyShared(fileOff, 0, PAGE_SIZE)
    else ZeroFill
  }

  /** The check after a private copy: a copy that skips bytes may not need a
      second source page. */
  predicate SkipPanics(a: Area, readOff: nat, copyLen: nat)
  {
    a.dvskip > 0 && copyLen < a.dlength && readOff != a.doffset % PAGE_SIZE
  }

  /** A fault on a page that is already mapped: a write to a copy-on-write
      page promotes it, anything else is refused. */
  lemma Refault(a: Area, readOff: nat, write: bool, flags: PageFlags)
    requires a.dvskip < PAGE_SIZE && a.flags.fault
    ensures Decide(a, readOff, write, Some(flags)) == Promote <==> write && flags.cow
    ensures Decide(a, readOff, write, Some(flags)) == Refuse <==> !(write && flags.cow)
  {
  }

  /** The kernel assertions: an area without VM_FLAG_FAULT halts whatever
      else holds, and an unaligned `va_doffset` halts every first fault on a
      page. */
  lemma Assertions(a: Area, readOff: nat, write: bool, existing: Option<PageFlags>)
    requires a.dvskip < PAGE_SIZE
    ensures !a.flags.fault ==> Decide(a, readOff, write, existing) == Halt(NotFaultArea)
    ensures a.flags.fault && existing.None? && a.doffset % PAGE_SIZE != 0 ==>
      Decide(a, readOff, write, existing) == Halt(UnalignedDoffset)
    ensures Decide(a, readOff, write, existing).Halt? ==>
      !a.flags.fault || (existing.None? && a.doffset % PAGE_SIZE != 0)
  {
  }

  /** A first fault is served from the file exactly when the area has a
      dentry and the page starts inside the backed region; otherwise a zero
      page is made. */
  lemma FileOrZero(a: Area, readOff: nat, write: bool)
    requires a.dvskip < PAGE_SIZE && a.flags.fault && a.doffset % PAGE_SIZE == 0
    ensures Decide(a, readOff, write, None) == ZeroFill <==> a.dentry.None? || readOff >= a.dlength
    ensures Decide(a, readOff, write, None).LinkShared? || Decide(a, readOff, write, None).CopyShared?
      <==> a.dentry.Some? && readOff < a.dlength
  {
  }

  /** The cached page is linked 1-on-1 exactly when it lies wholly inside the
      backed region, the file offset is page-aligned, nothing is skipped on
      it, and the area is not private; it is the page at file offset
      `readOff + va_doffset`. */
  lemma LinkExactly(a: Area, readOff: nat, write: bool)
    requires a.dvskip < PAGE_SIZE && a.flags.fault && a.doffset % PAGE_SIZE == 0
    requires a.dentry.Some? && readOff < a.dlength
    ensures Decide(a, readOff, write, None).LinkShared? <==>
      && readOff + PAGE_SIZE <= a.dlength
      && (readOff >= PAGE_SIZE || a.dvskip == 0)
      && !a.flags.private
    ensures Decide(a, readOff, write, None).LinkShared? ==>
      Decide(a, readOff, write, None).fileOff == readOff + a.doffset
  {
  }

  /** The private copy takes a whole page from offset 0, except on the first
      page of an area with a skip, where it takes the `PAGE_SIZE - va_dvskip`
      bytes after the skip. It never reads past the source page. */
  lemma CopyExtent(a: Area, readOff: nat, write: bool)
    requires a.dvskip < PAGE_SIZE && Decide(a, readOff, write, None).CopyShared?
    ensures var p := Decide(a, readOff, write, None);
      && p.fileOff == readOff + a.doffset
      && p.srcOff + p.len == PAGE_SIZE
      && (p.srcOff > 0 <==> readOff < PAGE_SIZE && a.dvskip > 0)
      && (p.srcOff > 0 ==> p.srcOff == a.dvskip)
  {
  }

  /** In an area that skips bytes and whose backed region is longer than one
      page, a private copy of any page after the first halts the kernel,
      while the copy of the first page (offset 0 of a page-aligned file
      region) never does. */
  lemma SkipPanicsAfterFirstPage(a: Area, readOff: nat, write: bool)
    requires WellFormed(a) && readOff % PAGE_SIZE == 0
    requires Decide(a, readOff, write, None).CopyShared?
    requires a.dvskip > 0 && a.dlength > PAGE_SIZE
    ensures SkipPanics(a, readOff, Decide(a, readOff, write, None).len) <==> readOff != 0
  {
  }

  /** A read-only, shared area backed by a 10-byte file from offset 0: the
      first fault on its page copies the whole shared page privately (the
      page is not wholly inside the backed region), the load reads exactly
      the file, and the private page starts with the file's 10 bytes followed
      by what the allocator left in the shared frame, which is not cleared. */
  lemma ExampleTenByteFile(a: Area, data: seq<byte>, junk: seq<byte>)
    requires |data| == 10 && |junk| == PAGE_SIZE
    requires a == Area(0x1000, PAGE_SIZE, AreaFlags(true, false, true, false), Some(Dentry(7, data)), 0, 10, 0)
    ensures Decide(a, 0, false, None) == CopyShared(0, 0, PAGE_SIZE)
    ensures !SkipPanics(a, 0, PAGE_SIZE)
    ensures ReadData(data, 0, LoadLength(0, |data|), false) == ReadOk(data)
    ensures var page := CopyInto(Fill(data, junk), junk, PAGE_SIZE, 0, 0);
      page[..10] == data && page[10..] == junk[10..]
  {
    LoadPage(Dentry(7, data), 0, false);
    assert data[0..Min(10, PAGE_SIZE)] == data;
    var page := CopyInto(Fill(data, junk), junk, PAGE_SIZE, 0, 0);
    assert page == Fill(data, junk);
  }

  // ---------------------------------------------------------------------
  // The VM page records, the shared page cache and the physical frames

  /** The key of the shared page cache: inode number and file offset. */
  datatype CacheKey = CacheKey(inode: nat, offset: nat)

  /** A `VM_PAGE`: its flags, its physical frame (`vp_page`, absent while a
      load is pending), `vp_vaddr`, and for a page made by `vmpage_link` the
      page it links to. */
  datatype VmPage = VmPage(flags: PageFlags, frame: Option<nat>, vaddr: nat, link: Option<nat>)

  /** The outcome of `vmspace_get_dentry_backed_page`: the page, or the
      read error the kernel asserts against. */
  datatype Lookup = Found(id: nat) | Failed(err: ReadError)

  class PageStore {
    var pages: map<nat, VmPage>
    var cache: map<CacheKey, nat>
    var frames: map<nat, seq<byte>>
    /** The loads from backing files, in the order they were issued. */
    var loads: seq<CacheKey>
    var nextPage: nat
    var nextFrame: nat

    ghost predicate Valid()
      reads this
    {
      && (forall id :: id in pages ==> id < nextPage)
      && (forall id :: id in pages && !pages[id].flags.pending ==> pages[id].frame.Some?)
      && (forall id :: id in pages && pages[id].frame.Some? ==> pages[id].frame.value in frames)
      && (forall f :: f in frames ==> f < nextFrame && |frames[f]| == PAGE_SIZE)
      && (forall k :: k in cache ==> cache[k] in pages)
    }

    /** The contents of the frame behind page `id`. */
    ghost function Contents(id: nat): seq<byte>
      reads this
      requires Valid() && id in pages && pages[id].frame.Some?
    {
      frames[pages[id].frame.value]
    }

    /** A cached page that is loaded: a fault on it reads nothing. */
    ghost predicate Loaded(key: CacheKey)
      reads this
    {
      key in cache && cache[key] in pages && !pages[cache[key]].flags.pending
    }

    /** The contents of the loaded cached pages, by cache key. */
    ghost function LoadedContents(): map<CacheKey, seq<byte>>
      reads this
    {
      map k | k in cache && Loaded(k) && pages[cache[k]].frame.Some? && pages[cache[k]].frame.value in frames
        :: frames[pages[cache[k]].frame.value]
    }

    constructor ()
      ensures Valid()
      ensures pages == map[] && cache == map[] && frames == map[] && loads == []
    {
      pages, cache, frames, loads := map[], map[], map[], [];
      nextPage, nextFrame := 0, 0;
    }

    /** `page_alloc_single_mapped`: a new frame holding whatever the allocator
        left in it. */
    method AllocFrame(junk: seq<byte>) returns (f: nat)
      requires Valid() && |junk| == PAGE_SIZE
      modifies this
      ensures Valid()
      ensures f !in old(frames) && frames == old(frames)[f := junk]
      ensures pages == old(pages) && cache == old(cache) && loads == old(loads)
    {
      f := nextFrame;
      frames := frames[f := junk];
      nextFrame := nextFrame + 1;
    }

    /** `vmpage_create_shared`: a new page with no frame yet, entered in the
        cache under `key`. */
    method CreateShared(key: CacheKey, flags: PageFlags) returns (id: nat)
      requires Valid() && key !in cache && flags.pending
      modifies this
      ensures Valid()
      ensures id !in old(pages) && pages == old(pages)[id := VmPage(flags, None, 0, None)]
      ensures cache == old(cache)[key := id]
      ensures frames == old(frames) && loads == old(loads)
    {
      id := nextPage;
      pages := pages[id := VmPage(flags, None, 0, None)];
      cache := cache[key := id];
      nextPage := nextPage + 1;
    }

    /** `vmpage_create_private`: a new page of the area with the given flags
        and a frame of its own. */
    method CreatePrivate(flags: PageFlags, junk: seq<byte>) returns (id: nat)
      requires Valid() && !flags.pending && |junk| == PAGE_SIZE
      modifies this
      ensures Valid()
      ensures id !in old(pages) && id in pages && pages[id].flags == flags && pages[id].link == None
      ensures pages[id].frame.Some? && pages[id].frame.value !in old(frames)
      ensures pages == old(pages)[id := pages[id]] && cache == old(cache) && loads == old(loads)
      ensures frames == old(frames)[pages[id].frame.value := junk]
    {
      var f := AllocFrame(junk);
      id := nextPage;
      pages := pages[id := VmPage(flags, Some(f), 0, None)];
      nextPage := nextPage + 1;
    }

    /** `vmpage_link`: a new page of the area that stands for the loaded
        shared page `src`, with its flags and its frame. */
    method Link(src: nat) returns (id: nat)
      requires Valid() && src in pages && !pages[src].flags.pending
      modifies this
      ensures Valid()
      ensures id !in old(pages) && id != src
      ensures pages == old(pages)[id := VmPage(old(pages)[src].flags, old(pages)[src].frame, 0, Some(src))]
      ensures frames == old(frames) && cache == old(cache) && loads == old(loads)
    {
      id := nextPage;
      pages := pages[id := VmPage(pages[src].flags, pages[src].frame, 0, Some(src))];
      nextPage := nextPage + 1;
    }

    /** `vmpage_promote`: a private, writable copy of page `src`, frame
        contents included. */
    method Promote(src: nat, junk: seq<byte>) returns (id: nat)
      requires Valid() && src in pages && !pages[src].flags.pending && |junk| == PAGE_SIZE
      modifies this
      ensures Valid()
      ensures id !in old(pages) && id in pages && pages[id].flags == PageFlags(false, false, false, true)
      ensures pages[id].frame.Some? && pages[id].frame.value !in old(frames)
      ensures pages == old(pages)[id := pages[id]] && cache == old(cache) && loads == old(loads)
      ensures frames == old(frames)[pages[id].frame.value := old(Contents(src))]
    {
      var contents := frames[pages[src].frame.value];
      id := CreatePrivate(PageFlags(false, false, false, true), junk);
      frames := frames[pages[id].frame.value := contents];
    }

    /** `vmpage_copy_extended` from the frame of `src` into the frame of
        `dst`. */
    method CopyExtended(src: nat, dst: nat, len: nat, srcOff: nat, dstOff: nat)
      requires Valid() && src in pages && dst in pages
      requires pages[src].frame.Some? && pages[dst].frame.Some?
      requires pages[src].frame != pages[dst].frame
      requires srcOff + len <= PAGE_SIZE && dstOff + len <= PAGE_SIZE
      modifies this
      ensures Valid()
      ensures pages == old(pages) && cache == old(cache) && loads == old(loads)
      ensures frames == old(frames)[pages[dst].frame.value :=
        CopyInto(old(Contents(src)), old(Contents(dst)), len, srcOff, dstOff)]
    {
      var sf, df := pages[src].frame.value, pages[dst].frame.value;
      frames := frames[df := CopyInto(frames[sf], frames[df], len, srcOff, dstOff)];
    }

    /** `vmpage_zero`: every byte of the page's frame becomes 0. */
    method Zero(id: nat)
      requires Valid() && id in pages && pages[id].frame.Some?
      modifies this
      ensures Valid()
      ensures pages == old(pages) && cache == old(cache) && loads == old(loads)
      ensures frames == old(frames)[pages[id].frame.value := Zeros()]
    {
      frames := frames[pages[id].frame.value := Zeros()];
    }

    /** Sets `vp_vaddr`. */
    method SetVaddr(id: nat, vaddr: nat)
      requires Valid() && id in pages
      modifies this
      ensures Valid()
      ensures pages == old(pages)[id := old(pages)[id].(vaddr := vaddr)]
      ensures frames == old(frames) && cache == old(cache) && loads == old(loads)
    {
      pages := pages[id := pages[id].(vaddr := vaddr)];
    }

    /** Lines 77-79 of `vmspace_get_dentry_backed_page`: the frame `f` now
        holds `contents`, and page `id` owns it and is no longer PENDING. */
    method Complete(id: nat, f: nat, contents: seq<byte>)
      requires Valid() && id in pages && f in frames && |contents| == PAGE_SIZE
      modifies this
      ensures Valid()
      ensures frames == old(frames)[f := contents]
      ensures pages == old(pages)[id := VmPage(old(pages)[id].flags.(pending := false), Some(f),
                                               old(pages)[id].vaddr, old(pages)[id].link)]
      ensures cache == old(cache) && loads == old(loads)
    {
      frames := frames[f := contents];
      pages := pages[id := pages[id].(frame := Some(f), flags := pages[id].flags.(pending := false))];
    }

    /** Lines 62-80 of `vmspace_get_dentry_backed_page`: the pending page
        `id` gets a new frame, the file is read into it and, when the read
        succeeds, the page holds the frame and is no longer PENDING. */
    method Load(id: nat, key: CacheKey, d: Dentry, ioError: bool, junk: seq<byte>) returns (r: Lookup)
      requires Valid() && id in pages && pages[id].flags.pending && |junk| == PAGE_SIZE
      requires key.inode == d.inode
      modifies this
      ensures Valid()
      ensures loads == old(loads) + [key] && cache == old(cache)
      ensures id in pages && pages.Keys == old(pages.Keys)
      ensures match ReadData(d.data, key.offset, LoadLength(key.offset, |d.data|), ioError)
        case ReadErr(e) => r == Failed(e)
        case ReadOk(bytes) =>
          && r == Found(id) && pages[id].frame.Some?
          && Contents(id) == Fill(bytes, junk)
          && pages[id].flags == old(pages)[id].flags.(pending := false)
      ensures forall x :: x in old(pages) && x != id ==> x in pages && pages[x] == old(pages)[x]
      ensures forall f :: f in old(frames) ==> f in frames && frames[f] == old(frames)[f]
    {
      var f := AllocFrame(junk);
      var len := LoadLength(key.offset, |d.data|);
      var rd := ReadData(d.data, key.offset, len, ioError);
      loads := loads + [key];
      if rd.ReadErr? {
        return Failed(rd.err);
      }
      assert |rd.bytes| <= PAGE_SIZE by {
        if key.offset <= |d.data| { LoadLengthClamp(key.offset, |d.data|); }
      }
      Complete(id, f, Fill(rd.bytes, junk));
      r := Found(id);
    }

    /** `vmspace_get_dentry_backed_page`: the shared page for `fileOff` of
        `d`. A cached page that is loaded is returned as it is, without a
        read. Otherwise the page (created PENDING with the area's page flags
        if it was not cached) is loaded. A failed read is returned as an
        error: the kernel asserts that it does not happen. */
    method GetDentryBackedPage(d: Dentry, fileOff: nat, areaFlags: AreaFlags, ioError: bool, junk: seq<byte>)
      returns (r: Lookup)
      requires Valid() && |junk| == PAGE_SIZE
      modifies this
      ensures Valid()
      ensures old(Loaded(CacheKey(d.inode, fileOff))) ==>
        r == Found(old(cache)[CacheKey(d.inode, fileOff)]) && unchanged(this)
      ensures !old(Loaded(CacheKey(d.inode, fileOff))) ==>
        && loads == old(loads) + [CacheKey(d.inode, fileOff)]
        && match ReadData(d.data, fileOff, LoadLength(fileOff, |d.data|), ioError)
           case ReadErr(e) => r == Failed(e)
           case ReadOk(bytes) =>
             && r.Found? && r.id in pages && pages[r.id].frame.Some?
             && Contents(r.id) == Fill(bytes, junk)
             && pages[r.id].flags ==
                  (if CacheKey(d.inode, fileOff) in old(cache) then old(pages)[old(cache)[CacheKey(d.inode, fileOff)]].flags
                   else FlagsFromVa(areaFlags)).(pending := false)
      ensures r.Found? ==>
        Loaded(CacheKey(d.inode, fileOff)) && r.id == cache[CacheKey(d.inode, fileOff)]
      ensures cache.Keys == old(cache.Keys) + {CacheKey(d.inode, fileOff)}
      ensures forall id :: id in old(pages) && id != cache[CacheKey(d.inode, fileOff)] ==>
        id in pages && pages[id] == old(pages)[id]
      ensures old(pages).Keys <= pages.Keys
      ensures forall id :: id in old(pages) && !old(pages)[id].flags.pending ==> id in pages && pages[id] == old(pages)[id]
      ensures forall f :: f in old(frames) ==> f in frames && frames[f] == old(frames)[f]
    {
      var key := CacheKey(d.inode, fileOff);
      var id: nat;
      if key in cache {
        id := cache[key];
      } else {
        id := CreateShared(key, FlagsFromVa(areaFlags).(pending := true));
      }
      if !pages[id].flags.pending {
        return Found(id);
      }
      r := Load(id, key, d, ioError, junk);
    }
  }

  // ---------------------------------------------------------------------
  // The address space and the fault handler

  /** The offset in area `a` of the page holding `virt` (`read_off`). */
  function ReadOff(a: Area, virt: nat): (off: nat)
    requires WellFormed(a) && Contains(a, virt)
    ensures off % PAGE_SIZE == 0 && a.virt + off == PageBase(virt)
  {
    assert a.virt <= PageBase(virt) by {
      var k := a.virt / PAGE_SIZE;
      assert a.virt == k * PAGE_SIZE;
      var q := virt / PAGE_SIZE;
      assert PageBase(virt) == q * PAGE_SIZE;
      assert virt < (q + 1) * PAGE_SIZE;
    }
    PageBase(virt) - a.virt
  }

  /** An entry of an area's page list: the area's index and `vp_vaddr`. */
  datatype Slot = Slot(area: nat, vaddr: nat)

  /** An installed translation: the VM page and its frame. */
  datatype Mapping = Mapping(page: nat, frame: nat)

  /** The page flags of a private page (`VM_PAGE_FLAG_PRIVATE` alone). */
  const PrivateFlags := PageFlags(false, false, false, true)

  class VmSpace {
    /** `vs_areas`, in list order. */
    var areas: seq<Area>
    /** The page lists of the areas, by area index and `vp_vaddr`. */
    var areaPages: map<Slot, nat>
    /** What `vmpage_map` installed: page-aligned address to page and frame. */
    var mmu: map<nat, Mapping>

    ghost predicate Valid(store: PageStore)
      reads this, store
    {
      && store.Valid()
      && (forall i :: 0 <= i < |areas| ==> WellFormed(areas[i]))
      && (forall s :: s in areaPages ==> areaPages[s] in store.pages && !store.pages[areaPages[s]].flags.pending)
    }

    /** The flags of the page the area already has at the slot, if any
        (`vmpage_lookup_vaddr_locked`). */
    ghost function Existing(store: PageStore, slot: Slot): Option<PageFlags>
      reads this, store
      requires Valid(store)
    {
      if slot in areaPages then Some(store.pages[areaPages[slot]].flags) else None
    }

    /** The slot of the page holding `virt` in the first area that holds it. */
    ghost function SlotOf(virt: nat): Slot
      reads this
      requires FirstArea(areas, virt, 0).Some?
    {
      Slot(FirstArea(areas, virt, 0).value, PageBase(virt))
    }

    /** The plan of a fault at `virt`, or None when no area holds it. */
    ghost function PlanFor(store: PageStore, virt: nat, write: bool): Option<Plan>
      reads this, store
      requires Valid(store)
    {
      match FirstArea(areas, virt, 0)
      case None => None
      case Some(i) =>
        Some(Decide(areas[i], ReadOff(areas[i], virt), write, Existing(store, Slot(i, PageBase(virt)))))
    }

    /** The slot holds a page whose `vp_vaddr` is the slot's address and
        whose frame is mapped there. */
    ghost predicate Installed(store: PageStore, slot: Slot)
      reads this, store
    {
      && slot in areaPages && areaPages[slot] in store.pages
      && store.pages[areaPages[slot]].vaddr == slot.vaddr
      && store.pages[areaPages[slot]].frame.Some?
      && slot.vaddr in mmu
      && mmu[slot.vaddr] == Mapping(areaPages[slot], store.pages[areaPages[slot]].frame.value)
    }

    /** Apart from `slot`, its address and the pages in `changed`, the page
        lists of the areas, the mappings, the pages and the frames are as
        they were; pages and frames may have been added. */
    ghost predicate KeptBesides(store: PageStore, slot: Slot, oldAreaPages: map<Slot, nat>,
                                oldMmu: map<nat, Mapping>, oldPages: map<nat, VmPage>,
                                oldFrames: map<nat, seq<byte>>, changed: set<nat>)
      reads this, store
    {
      && slot in areaPages && areaPages == oldAreaPages[slot := areaPages[slot]]
      && slot.vaddr in mmu && mmu == oldMmu[slot.vaddr := mmu[slot.vaddr]]
      && (forall id :: id in oldPages && id !in changed ==> id in store.pages && store.pages[id] == oldPages[id])
      && (forall f :: f in oldFrames ==> f in store.frames && store.frames[f] == oldFrames[f])
    }

    constructor (areas: seq<Area>)
      requires forall i :: 0 <= i < |areas| ==> WellFormed(areas[i])
      ensures this.areas == areas && areaPages == map[] && mmu == map[]
    {
      this.areas := areas;
      areaPages, mmu := map[], map[];
    }

    /** Sets `vp_vaddr` of page `id` to the slot's address, which puts it in
        the area's page list there. */
    method Attach(store: PageStore, slot: Slot, id: nat)
      requires Valid(store) && id in store.pages && !store.pages[id].flags.pending
      modifies this, store
      ensures Valid(store)
      ensures store.pages == old(store.pages)[id := old(store.pages)[id].(vaddr := slot.vaddr)]
      ensures store.frames == old(store.frames) && store.cache == old(store.cache)
      ensures store.loads == old(store.loads)
      ensures areas == old(areas) && mmu == old(mmu) && areaPages == old(areaPages)[slot := id]
    {
      store.SetVaddr(id, slot.vaddr);
      areaPages := areaPages[slot := id];
    }

    /** `vmpage_map`: the page's frame is mapped at its `vp_vaddr`. */
    method Map(store: PageStore, id: nat)
      requires store.Valid() && id in store.pages && store.pages[id].frame.Some?
      modifies this
      ensures mmu == old(mmu)[store.pages[id].vaddr := Mapping(id, store.pages[id].frame.value)]
      ensures areas == old(areas) && areaPages == old(areaPages)
    {
      mmu := mmu[store.pages[id].vaddr := Mapping(id, store.pages[id].frame.value)];
    }
  
    /** What serving a fault from the file leaves behind, given the contents
        of the cached pages that were loaded, the loads issued and the state
        before: a failed load and a copy that would need a second source page
        halt the kernel; otherwise the cache holds the loaded page (read from
        the file unless it was loaded already, in which case it is as it
        was) and the slot holds a new page mapped at its address, either a
        link to the cached page sharing its frame or a private copy of the
        planned part of it. Nothing else changes. */
    ghost predicate ServedFromFile(store: PageStore, a: Area, slot: Slot, readOff: nat, ioError: bool,
                                   junk: seq<byte>, r: FaultResult,
                                   oldLoaded: map<CacheKey, seq<byte>>, oldLoads: seq<CacheKey>,
                                   oldAreaPages: map<Slot, nat>, oldMmu: map<nat, Mapping>,
                                   oldPages: map<nat, VmPage>, oldFrames: map<nat, seq<byte>>)
      reads this, store
      requires a.dvskip < PAGE_SIZE && |junk| == PAGE_SIZE && a.dentry.Some?
    {
      var d := a.dentry.value;
      var key := CacheKey(d.inode, readOff + a.doffset);
      var load := ReadData(d.data, key.offset, LoadLength(key.offset, |d.data|), ioError);
      var plan := Decide(a, readOff, false, None);
      LoadFits(d.data, key.offset, ioError);
      if key !in oldLoaded && load.ReadErr? then r == Fatal(LoadFailed(load.err))
      else if plan.CopyShared? && SkipPanics(a, readOff, plan.len) then r == Fatal(UnalignedSkip)
      else
        && r == Success && Valid(store) && Installed(store, slot)
        && store.Loaded(key) && areaPages[slot] !in oldPages
        && store.loads == oldLoads + (if key in oldLoaded then [] else [key])
        && (key !in oldLoaded ==> store.Contents(store.cache[key]) == Fill(load.bytes, junk))
        && (key in oldLoaded ==> store.Contents(store.cache[key]) == oldLoaded[key])
        && KeptBesides(store, slot, oldAreaPages, oldMmu, oldPages, oldFrames,
                       if key in oldLoaded then {} else {store.cache[key]})
        && (plan.LinkShared? ==>
              && store.pages[areaPages[slot]].link == Some(store.cache[key])
              && store.pages[areaPages[slot]].frame == store.pages[store.cache[key]].frame)
        && (plan.CopyShared? ==>
              && store.pages[areaPages[slot]].flags == FlagsFromVa(a.flags).(private := true)
              && store.Contents(areaPages[slot])
                   == CopyInto(store.Contents(store.cache[key]), junk, plan.len, plan.srcOff, 0))
    }

    /** Lines 100-107: a write fault on a copy-on-write page. The page is
        replaced in the area by a private copy of it, which is mapped. */
    method PromoteAt(store: PageStore, slot: Slot, junk: seq<byte>)
      requires Valid(store) && slot in areaPages && |junk| == PAGE_SIZE
      modifies this, store
      ensures Valid(store) && Installed(store, slot) && areas == old(areas)
      ensures areaPages[slot] !in old(store.pages)
      ensures store.pages[areaPages[slot]].flags == PrivateFlags
      ensures store.Contents(areaPages[slot]) == old(store.Contents(areaPages[slot]))
      ensures store.cache == old(store.cache) && store.loads == old(store.loads)
      ensures KeptBesides(store, slot, old(areaPages), old(mmu), old(store.pages), old(store.frames), {})
    {
      var np := store.Promote(areaPages[slot], junk);
      Attach(store, slot, np);
      Map(store, np);
    }

    /** Lines 215-225: a fresh private page, zeroed, mapped at the slot. */
    method ZeroFillAt(store: PageStore, slot: Slot, junk: seq<byte>)
      requires Valid(store) && |junk| == PAGE_SIZE
      modifies this, store
      ensures Valid(store) && Installed(store, slot) && areas == old(areas)
      ensures areaPages[slot] !in old(store.pages)
      ensures store.pages[areaPages[slot]].flags == PrivateFlags
      ensures store.Contents(areaPages[slot]) == Zeros()
      ensures store.cache == old(store.cache) && store.loads == old(store.loads)
      ensures KeptBesides(store, slot, old(areaPages), old(mmu), old(store.pages), old(store.frames), {})
    {
      var np := store.CreatePrivate(PrivateFlags, junk);
      Attach(store, slot, np);
      store.Zero(np);
      Map(store, np);
    }

    /** Lines 206-210 (and 217, 223 for an anonymous page): `vp_vaddr` of
        page `id` becomes the slot's address, which enters it in the area's
        page list, and `vmpage_map` maps it there. */
    method Install(store: PageStore, slot: Slot, id: nat)
      requires Valid(store) && id in store.pages && !store.pages[id].flags.pending
      modifies this, store
      ensures Valid(store) && Installed(store, slot) && areas == old(areas)
      ensures areaPages == old(areaPages)[slot := id]
      ensures mmu == old(mmu)[slot.vaddr := Mapping(id, store.pages[id].frame.value)]
      ensures store.pages == old(store.pages)[id := old(store.pages)[id].(vaddr := slot.vaddr)]
      ensures store.frames == old(store.frames)
      ensures store.cache == old(store.cache) && store.loads == old(store.loads)
    {
      Attach(store, slot, id);
      Map(store, id);
    }

    /** Lines 161-202: a private page of the area holding the planned part of
        the loaded shared page `vmpage`, and whether the copy skipped bytes
        and needs a second source page, on which the kernel panics. */
    method CopyPrivate(store: PageStore, a: Area, readOff: nat, vmpage: nat, junk: seq<byte>)
      returns (newVp: nat, panics: bool)
      requires store.Valid() && vmpage in store.pages && !store.pages[vmpage].flags.pending
      requires |junk| == PAGE_SIZE && a.dvskip < PAGE_SIZE && Decide(a, readOff, false, None).CopyShared?
      modifies store
      ensures store.Valid()
      ensures panics == SkipPanics(a, readOff, Decide(a, readOff, false, None).len)
      ensures newVp !in old(store.pages) && newVp in store.pages
      ensures store.pages == old(store.pages)[newVp := store.pages[newVp]]
      ensures store.pages[newVp].flags == FlagsFromVa(a.flags).(private := true)
      ensures store.pages[newVp].frame.Some? && store.pages[newVp].frame.value !in old(store.frames)
      ensures store.frames == old(store.frames)[store.pages[newVp].frame.value :=
        CopyInto(old(store.Contents(vmpage)), junk, Decide(a, readOff, false, None).len,
                 Decide(a, readOff, false, None).srcOff, 0)]
      ensures store.cache == old(store.cache) && store.loads == old(store.loads)
    {
      newVp := store.CreatePrivate(FlagsFromVa(a.flags).(private := true), junk);
      var srcOff: nat, copyLen: nat := 0, PAGE_SIZE;
      if readOff < PAGE_SIZE && a.dvskip > 0 {
        srcOff := a.dvskip;
        copyLen := copyLen - a.dvskip;
      }
      store.CopyExtended(vmpage, newVp, copyLen, srcOff, 0);
      panics := a.dvskip > 0 && copyLen < a.dlength && readOff != a.doffset % PAGE_SIZE;
    }

    /** Lines 148-211 once the shared page `vmpage` is loaded: it is linked
        1-on-1 or copied privately, as planned, and the new page is mapped
        at the slot, unless the copy panics. */
    method ServeLoaded(store: PageStore, a: Area, slot: Slot, readOff: nat, vmpage: nat, junk: seq<byte>)
      returns (r: FaultResult)
      requires Valid(store) && vmpage in store.pages && !store.pages[vmpage].flags.pending
      requires |junk| == PAGE_SIZE && a.dvskip < PAGE_SIZE
      requires a.flags.fault && a.doffset % PAGE_SIZE == 0 && a.dentry.Some? && readOff < a.dlength
      modifies this, store
      ensures areas == old(areas) && store.Valid()
      ensures store.cache == old(store.cache) && store.loads == old(store.loads)
      ensures old(store.pages).Keys <= store.pages.Keys && store.pages[vmpage] == old(store.pages)[vmpage]
      ensures forall f :: f in old(store.frames) ==> f in store.frames && store.frames[f] == old(store.frames)[f]
      ensures var plan := Decide(a, readOff, false, None);
        if plan.CopyShared? && SkipPanics(a, readOff, plan.len) then r == Fatal(UnalignedSkip)
        else
          && r == Success && Valid(store) && Installed(store, slot)
          && areaPages[slot] !in old(store.pages)
          && KeptBesides(store, slot, old(areaPages), old(mmu), old(store.pages), old(store.frames), {})
          && (plan.LinkShared? ==>
                && store.pages[areaPages[slot]].link == Some(vmpage)
                && store.pages[areaPages[slot]].frame == store.pages[vmpage].frame)
          && (plan.CopyShared? ==>
                && store.pages[areaPages[slot]].flags == FlagsFromVa(a.flags).(private := true)
                && store.Contents(areaPages[slot])
                     == CopyInto(old(store.Contents(vmpage)), junk, plan.len, plan.srcOff, 0))
    {
      var canReuse := true;
      canReuse := canReuse && readOff + PAGE_SIZE <= a.dlength;
      canReuse := canReuse && a.doffset % PAGE_SIZE == 0;
      canReuse := canReuse && (readOff >= PAGE_SIZE || a.dvskip == 0);
      var newVp: nat;
      if canReuse && !a.flags.private {
        newVp := store.Link(vmpage);
      } else {
        var panics;
        newVp, panics := CopyPrivate(store, a, readOff, vmpage, junk);
        if panics {
          return Fatal(UnalignedSkip);
        }
      }
      Install(store, slot, newVp);
      r := Success;
    }

    /** Lines 139-211: the page at `readOff` of a file-backed area, linked
        or copied from the shared page of the file. */
    method FromFile(store: PageStore, a: Area, slot: Slot, readOff: nat, ioError: bool, junk: seq<byte>)
      returns (r: FaultResult)
      requires Valid(store) && |junk| == PAGE_SIZE && a.dvskip < PAGE_SIZE
      requires a.flags.fault && a.doffset % PAGE_SIZE == 0 && a.dentry.Some? && readOff < a.dlength
      modifies this, store
      ensures areas == old(areas)
      ensures ServedFromFile(store, a, slot, readOff, ioError, junk, r,
                             old(store.LoadedContents()), old(store.loads),
                             old(areaPages), old(mmu), old(store.pages), old(store.frames))
    {
      var d := a.dentry.value;
      ghost var key := CacheKey(d.inode, readOff + a.doffset);
      assert key in store.LoadedContents() <==> store.Loaded(key);
      var lookup := store.GetDentryBackedPage(d, readOff + a.doffset, a.flags, ioError, junk);
      if lookup.Failed? {
        return Fatal(LoadFailed(lookup.err));
      }
      ghost var loaded := store.Contents(lookup.id);
      r := ServeLoaded(store, a, slot, readOff, lookup.id, junk);
      assert store.cache[key] == lookup.id && store.Loaded(key);
      assert store.Contents(lookup.id) == loaded;
    }
  
    /** `vmspace_handle_fault`: the area list is walked in order and the
        first area holding `virt` handles the fault as `Decide` plans it.
        An address outside every area, and a re-fault that is not a write to
        a copy-on-write page, give BAD_ADDRESS and change nothing. `ioError`
        is whether the device under a file fails a read, and `junk` what a
        newly allocated frame holds. */
    method HandleFault(store: PageStore, virt: nat, write: bool, ioError: bool, junk: seq<byte>)
      returns (r: FaultResult)
      requires Valid(store) && |junk| == PAGE_SIZE
      modifies this, store
      ensures areas == old(areas)
      ensures old(PlanFor(store, virt, write)).None? ==>
        r == BadAddress && unchanged(this) && unchanged(store)
      ensures old(PlanFor(store, virt, write)) == Some(Refuse) ==>
        r == BadAddress && unchanged(this) && unchanged(store)
      ensures old(PlanFor(store, virt, write)).Some? && old(PlanFor(store, virt, write)).value.Halt? ==>
        r == Fatal(old(PlanFor(store, virt, write)).value.reason)
      ensures old(PlanFor(store, virt, write)) == Some(Promote) ==>
        && r == Success && Valid(store) && Installed(store, SlotOf(virt))
        && areaPages[SlotOf(virt)] !in old(store.pages)
        && store.pages[areaPages[SlotOf(virt)]].flags == PrivateFlags
        && store.Contents(areaPages[SlotOf(virt)]) == old(store.Contents(areaPages[SlotOf(virt)]))
        && store.cache == old(store.cache) && store.loads == old(store.loads)
        && KeptBesides(store, SlotOf(virt), old(areaPages), old(mmu), old(store.pages), old(store.frames), {})
      ensures old(PlanFor(store, virt, write)) == Some(ZeroFill) ==>
        && r == Success && Valid(store) && Installed(store, SlotOf(virt))
        && areaPages[SlotOf(virt)] !in old(store.pages)
        && store.pages[areaPages[SlotOf(virt)]].flags == PrivateFlags
        && store.Contents(areaPages[SlotOf(virt)]) == Zeros()
        && store.cache == old(store.cache) && store.loads == old(store.loads)
        && KeptBesides(store, SlotOf(virt), old(areaPages), old(mmu), old(store.pages), old(store.frames), {})
      ensures old(PlanFor(store, virt, write)).Some? &&
              (old(PlanFor(store, virt, write)).value.LinkShared? ||
               old(PlanFor(store, virt, write)).value.CopyShared?) ==>
        var i := FirstArea(areas, virt, 0).value;
        ServedFromFile(store, areas[i], SlotOf(virt), ReadOff(areas[i], virt), ioError, junk, r,
                       old(store.LoadedContents()), old(store.loads),
                       old(areaPages), old(mmu), old(store.pages), old(store.frames))
    {
      var k := 0;
      while k < |areas|
        invariant k <= |areas|
        invariant FirstArea(areas, virt, 0) == FirstArea(areas, virt, k)
      {
        if Contains(areas[k], virt) {
          break;
        }
        k := k + 1;
      }
      if k == |areas| {
        return BadAddress;
      }
      var a := areas[k];
      if !a.flags.fault {
        return Fatal(NotFaultArea);
      }
      var slot := Slot(k, PageBase(virt));
      if slot in areaPages {
        if write && store.pages[areaPages[slot]].flags.cow {
          PromoteAt(store, slot, junk);
          return Success;
        }
        return BadAddress;
      }
      if a.doffset % PAGE_SIZE != 0 {
        return Fatal(UnalignedDoffset);
      }
      var readOff := ReadOff(a, virt);
      if a.dentry.Some? && readOff < a.dlength {
        r := FromFile(store, a, slot, readOff, ioError, junk);
        return;
      }
      ZeroFillAt(store, slot, junk);
      r := Success;
    }
  }
}
