/** The Ananas device file system: a constructed file system without backing
    store whose root directory lists the devices of the device queue, one
    entry `<name><unit>` per device, and whose inodes get fixed attributes.

    The device queue is a sequence. `vfs_filldirent`, which packs one
    directory record into the caller's buffer, is not part of this model
    beyond its size check: a record takes a fixed header, the fsop and the
    name, the size of the header is a parameter, and an emitted record is
    kept as a value. */
module DevFs {

  const DEVFS_BLOCK_SIZE: nat := 512
  const DEVFS_ROOTINODE_FSOP: nat := 1
  /** `sizeof(uint32_t)`: the fsop of a devfs inode is its inode number. */
  const DEVFS_FSOP_SIZE: nat := 4

  /** The file-type bits of a mode and the directory type, with the
      traditional POSIX values. */
  const S_IFMT: bv32 := 0xF000
  const S_IFDIR: bv32 := 0x4000

  datatype Errno = Ok | IoError

  /** One entry of the device queue. */
  datatype Device = Device(name: string, unit: nat)

  /** One directory record as `vfs_filldirent` writes it: the fsop (the
      inode number) and the name. */
  datatype Dirent = Dirent(inum: nat, name: string)

  /** Bytes a directory record with a name of `nameLen` characters takes,
      after a header of `header` bytes. */
  function RecordLength(header: nat, nameLen: nat): (n: nat)
    ensures n > nameLen
  {
    header + DEVFS_FSOP_SIZE + nameLen
  }

  function DigitChar(d: nat): char
    requires d < 10
  {
    ['0', '1', '2', '3', '4', '5', '6', '7', '8', '9'][d]
  }

  predicate IsDigit(c: char)
  {
    '0' <= c <= '9'
  }

  /** `%u`: the decimal digits of `n`, without leading zeros. */
  function Decimal(n: nat): string
  {
    if n < 10 then [DigitChar(n)] else Decimal(n / 10) + [DigitChar(n % 10)]
  }

  /** `%u` prints at least one digit, and nothing but digits. */
  lemma {:induction false} DecimalDigits(n: nat)
    ensures |Decimal(n)| > 0 && forall k :: 0 <= k < |Decimal(n)| ==> IsDigit(Decimal(n)[k])
  {
    if n >= 10 {
      DecimalDigits(n / 10);
    }
  }

  function DigitValue(c: char): nat
    requires IsDigit(c)
  {
    c as int - '0' as int
  }

  /** The value of a string of decimal digits. */
  function DecimalValue(s: string): nat
    requires forall k :: 0 <= k < |s| ==> IsDigit(s[k])
  {
    if s == [] then 0 else 10 * DecimalValue(s[..|s| - 1]) + DigitValue(s[|s| - 1])
  }

  lemma DigitRoundTrip(d: nat)
    requires d < 10
    ensures IsDigit(DigitChar(d)) && DigitValue(DigitChar(d)) == d
  {
  }

  /** The digits of a unit number read back as that number. */
  lemma {:induction false} DecimalRoundTrip(n: nat)
    ensures (forall k :: 0 <= k < |Decimal(n)| ==> IsDigit(Decimal(n)[k])) && DecimalValue(Decimal(n)) == n
  {
    var s := Decimal(n);
    DecimalDigits(n);
    if n < 10 {
      DigitRoundTrip(n);
      assert s[..0] == [];
    } else {
      DigitRoundTrip(n % 10);
      assert s[..|s| - 1] == Decimal(n / 10);
      DecimalRoundTrip(n / 10);
    }
  }

  /** `sprintf(devname, "%s%u", dev->name, dev->unit)`. */
  function DevName(d: Device): string
  {
    d.name + Decimal(d.unit)
  }

  /** The records the root directory emits from the device at index `idx`
      on, numbered from `inum`, into `left` bytes, and the bytes they take.
      A record is emitted while there is room left, a device left, and the
      record fits; a record that does not fit stops the listing. */
  function Fill(devs: seq<Device>, idx: nat, inum: nat, left: nat, header: nat): (seq<Dirent>, nat)
    decreases |devs| - idx
  {
    if left == 0 || idx >= |devs| then ([], 0)
    else
      var need := RecordLength(header, |DevName(devs[idx])|);
      if need > left then ([], 0)
      else
        var rest := Fill(devs, idx + 1, inum + 1, left - need, header);
        ([Dirent(inum, DevName(devs[idx]))] + rest.0, need + rest.1)
  }

  /** Devices the cursor skips: the first `offset`, or all of them. */
  function Skipped(devs: seq<Device>, offset: nat): (k: nat)
    ensures k <= |devs| && k <= offset && (k == offset || k == |devs|)
  {
    if offset < |devs| then offset else |devs|
  }

  /** What a read of the root directory with cursor `offset` into a buffer
      of `len` bytes returns: the records and the byte count. */
  function Readdir(devs: seq<Device>, offset: nat, len: nat, header: nat): (seq<Dirent>, nat)
  {
    var k := Skipped(devs, offset);
    Fill(devs, k, DEVFS_ROOTINODE_FSOP + 1 + k, len, header)
  }

  /** A record that fits is emitted and the listing goes on after it. */
  lemma FillStep(devs: seq<Device>, idx: nat, inum: nat, left: nat, header: nat)
    requires idx < |devs| && RecordLength(header, |DevName(devs[idx])|) <= left
    ensures var need, rest := RecordLength(header, |DevName(devs[idx])|), Fill(devs, idx + 1, inum + 1, left - RecordLength(header, |DevName(devs[idx])|), header);
      Fill(devs, idx, inum, left, header).0 == [Dirent(inum, DevName(devs[idx]))] + rest.0 &&
      Fill(devs, idx, inum, left, header).1 == need + rest.1
  {
  }

  /** The loop of `devfs_readdir_root` against the listing it produces:
      emitting the record of device `idx` keeps the records so far plus
      the rest of the listing equal to the whole. */
  lemma FillAdvance(devs: seq<Device>, idx: nat, inum: nat, left: nat, header: nat,
                    dirents: seq<Dirent>, written: nat, total: (seq<Dirent>, nat))
    requires idx < |devs| && RecordLength(header, |DevName(devs[idx])|) <= left
    requires dirents + Fill(devs, idx, inum, left, header).0 == total.0
    requires written + Fill(devs, idx, inum, left, header).1 == total.1
    ensures var need := RecordLength(header, |DevName(devs[idx])|);
      var rest := Fill(devs, idx + 1, inum + 1, left - need, header);
      (dirents + [Dirent(inum, DevName(devs[idx]))]) + rest.0 == total.0 &&
      written + need + rest.1 == total.1
  {
    var need := RecordLength(header, |DevName(devs[idx])|);
    var rest := Fill(devs, idx + 1, inum + 1, left - need, header);
    FillStep(devs, idx, inum, left, header);
    assert dirents + ([Dirent(inum, DevName(devs[idx]))] + rest.0) ==
      (dirents + [Dirent(inum, DevName(devs[idx]))]) + rest.0;
  }

  /** The k-th record names the device `idx + k` and has inode number
      `inum + k`; the records never take more room than there was. */
  lemma {:induction false} FillEntries(devs: seq<Device>, idx: nat, inum: nat, left: nat, header: nat)
    ensures var r := Fill(devs, idx, inum, left, header);
      && r.1 <= left
      && (|r.0| > 0 ==> idx + |r.0| <= |devs|)
      && forall k :: 0 <= k < |r.0| ==> r.0[k] == Dirent(inum + k, DevName(devs[idx + k]))
    decreases |devs| - idx
  {
    if left == 0 || idx >= |devs| {
    } else {
      var need := RecordLength(header, |DevName(devs[idx])|);
      if need > left {
      } else {
        FillEntries(devs, idx + 1, inum + 1, left - need, header);
      }
    }
  }

  /** The byte count is the sum of the lengths of the emitted records. */
  function TotalLength(entries: seq<Dirent>, header: nat): nat
  {
    if entries == [] then 0 else RecordLength(header, |entries[0].name|) + TotalLength(entries[1..], header)
  }

  lemma {:induction false} FillWritten(devs: seq<Device>, idx: nat, inum: nat, left: nat, header: nat)
    ensures var r := Fill(devs, idx, inum, left, header);
      r.1 == TotalLength(r.0, header)
    decreases |devs| - idx
  {
    var r := Fill(devs, idx, inum, left, header);
    if left == 0 || idx >= |devs| {
    } else {
      var need := RecordLength(header, |DevName(devs[idx])|);
      if need > left {
      } else {
        FillWritten(devs, idx + 1, inum + 1, left - need, header);
        assert r.0[1..] == Fill(devs, idx + 1, inum + 1, left - need, header).0;
      }
    }
  }

  /** The listing stops only for a reason: the devices ran out, the buffer
      is full, or the next device's record does not fit. */
  lemma {:induction false} FillStops(devs: seq<Device>, idx: nat, inum: nat, left: nat, header: nat)
    ensures var r := Fill(devs, idx, inum, left, header);
      var next := idx + |r.0|;
      r.1 <= left &&
      (next >= |devs| || r.1 == left ||
       RecordLength(header, |DevName(devs[next])|) > left - r.1)
    decreases |devs| - idx
  {
    if left == 0 || idx >= |devs| {
    } else {
      var need := RecordLength(header, |DevName(devs[idx])|);
      if need > left {
      } else {
        FillStops(devs, idx + 1, inum + 1, left - need, header);
      }
    }
  }

  /** A later read resumes where an earlier one stopped: the first record
      of a read with cursor `offset` is numbered `2 + offset` and names
      device `offset`, so reads that advance the cursor by the number of
      records they return list every device once, in queue order. */
  lemma ReaddirResumes(devs: seq<Device>, offset: nat, len: nat, header: nat)
    ensures var r := Readdir(devs, offset, len, header);
      && r.1 <= len
      && (|r.0| > 0 ==> offset + |r.0| <= |devs|)
      && forall k :: 0 <= k < |r.0| ==>
           r.0[k] == Dirent(DEVFS_ROOTINODE_FSOP + 1 + offset + k, DevName(devs[offset + k]))
  {
    var k := Skipped(devs, offset);
    FillEntries(devs, k, DEVFS_ROOTINODE_FSOP + 1 + k, len, header);
  }

  /** An open file of the file system: only its cursor matters here. */
  class DevfsFile {
    var offset: nat

    constructor ()
      ensures offset == 0
    {
      offset := 0;
    }

    /** `devfs_readdir_root`: skips the devices the cursor has passed,
        then emits a record per device while one fits, advancing the
        cursor per record; always succeeds. */
    method ReaddirRoot(devs: seq<Device>, len: nat, header: nat)
      returns (err: Errno, written: nat, dirents: seq<Dirent>)
      modifies this
      ensures err == Ok
      ensures (dirents, written) == Readdir(devs, old(offset), len, header)
      ensures offset == old(offset) + |dirents|
    {
      err := Ok;
      var left: nat, inum: nat := len, DEVFS_ROOTINODE_FSOP + 1;
      written, dirents := 0, [];
      var idx: nat := 0;
      var i: nat := 0;
      while i < offset && idx < |devs|
        invariant i == idx <= offset && idx <= |devs|
        invariant inum == DEVFS_ROOTINODE_FSOP + 1 + idx
      {
        idx, inum := idx + 1, inum + 1;
        i := i + 1;
      }
      assert idx == Skipped(devs, offset);
      // The cursor is advanced in a local and stored once at the end.
      var cursor := offset;
      ghost var start, off0 := idx, offset;
      ghost var total := Readdir(devs, off0, len, header);
      assert [] + Fill(devs, idx, inum, left, header).0 == total.0;
      while left > 0 && idx < |devs|
        invariant start <= idx <= |devs| && written + left == len
        invariant inum == DEVFS_ROOTINODE_FSOP + 1 + idx
        invariant cursor == off0 + |dirents| && idx == start + |dirents|
        invariant dirents + Fill(devs, idx, inum, left, header).0 == total.0
        invariant written + Fill(devs, idx, inum, left, header).1 == total.1
        decreases |devs| - idx
      {
        var name := DevName(devs[idx]);
        // vfs_filldirent fills in the record only when it fits; it answers
        // 0 when it does not.
        var filled := RecordLength(header, |name|);
        if filled > left {
          // Out of space.
          break;
        }
        FillAdvance(devs, idx, inum, left, header, dirents, written, total);
        dirents := dirents + [Dirent(inum, name)];
        written, left := written + filled, left - filled;
        inum := inum + 1;
        cursor := cursor + 1;
        idx := idx + 1;
      }
      assert Fill(devs, idx, inum, left, header) == ([], 0);
      assert dirents + [] == dirents;
      offset := cursor;
    }

    /** `devfs_read`: reading a device file is not implemented. */
    method Read(len: nat) returns (err: Errno, read: nat)
      ensures err == IoError && read == len
    {
      err, read := IoError, len;
    }

    /** `devfs_write`: writing a device file is not implemented. */
    method Write(len: nat) returns (err: Errno, wrote: nat)
      ensures err == IoError && wrote == len
    {
      err, wrote := IoError, len;
    }
  }

  /** The operation table an inode is given. */
  datatype InodeOps = NoOps | RootDirOps | FileOps

  /** The mode `devfs_read_inode` gives to the inode with fsop `ino`
      (octal 0444 is 0x124, octal 0111 is 0x49). */
  function ModeOf(ino: nat): bv32
  {
    if ino == DEVFS_ROOTINODE_FSOP then 0x124 | (S_IFDIR | 0x49) else 0x124
  }

  /** Every devfs inode is readable by everyone and writable by no one; the
      root, and only the root, is a directory that everyone may search. */
  lemma ModeMeaning(ino: nat)
    ensures ModeOf(ino) & 0x124 == 0x124 && ModeOf(ino) & 0x92 == 0
    ensures (ModeOf(ino) & S_IFMT == S_IFDIR) <==> ino == DEVFS_ROOTINODE_FSOP
    ensures (ModeOf(ino) & 0x49 == 0x49) <==> ino == DEVFS_ROOTINODE_FSOP
    ensures ino != DEVFS_ROOTINODE_FSOP ==> ModeOf(ino) & S_IFMT == 0
  {
  }

  /** The attributes in `struct stat` that `devfs_read_inode` sets, and the
      operation table. */
  class Inode {
    var ino: nat
    var mode: bv32
    var nlink: nat
    var uid: nat
    var gid: nat
    var atime: nat
    var mtime: nat
    var ctime: nat
    var size: nat
    var ops: InodeOps

    /** `devfs_alloc_inode`: a fresh inode with no operations; the inode's
        private data is not modelled. */
    constructor ()
      ensures ops == NoOps
    {
      ino, mode, nlink, uid, gid := 0, 0, 0, 0, 0;
      atime, mtime, ctime, size := 0, 0, 0, 0;
      ops := NoOps;
    }

    /** `devfs_read_inode`: the inode number is the fsop; size, owner and
        times are 0 and there is one link; the root fsop makes a directory
        with the root directory's operations, any other a device file. */
    method ReadInode(fsop: nat) returns (err: Errno)
      modifies this
      ensures err == Ok
      ensures ino == fsop && mode == ModeOf(fsop)
      ensures nlink == 1 && uid == 0 && gid == 0 && size == 0
      ensures atime == 0 && mtime == 0 && ctime == 0
      ensures ops == if fsop == DEVFS_ROOTINODE_FSOP then RootDirOps else FileOps
    {
      ino := fsop;
      mode := 0x124;
      nlink, uid, gid := 1, 0, 0;
      atime, mtime, ctime := 0, 0, 0;
      size := 0;
      if ino == DEVFS_ROOTINODE_FSOP {
        mode := mode | (S_IFDIR | 0x49);
        ops := RootDirOps;
      } else {
        ops := FileOps;
      }
      err := Ok;
    }
  }

  /** The mounted file system's own fields. */
  class MountedFs {
    var blockSize: nat
    var fsopSize: nat
    var rootInode: Inode?

    constructor ()
      ensures rootInode == null
    {
      blockSize, fsopSize, rootInode := 0, 0, null;
    }

    /** `devfs_mount`: fixes the block and fsop sizes and obtains the root
        inode from fsop 1. `vfs_get_inode` is not part of this model: the
        root is read directly into a freshly allocated inode. */
    method Mount() returns (err: Errno)
      modifies this
      ensures err == Ok && blockSize == DEVFS_BLOCK_SIZE && fsopSize == DEVFS_FSOP_SIZE
      ensures rootInode != null && fresh(rootInode)
      ensures rootInode.ino == DEVFS_ROOTINODE_FSOP && rootInode.ops == RootDirOps
      ensures rootInode.mode & S_IFMT == S_IFDIR
    {
      blockSize := DEVFS_BLOCK_SIZE;
      fsopSize := DEVFS_FSOP_SIZE;
      var root := new Inode();
      err := root.ReadInode(DEVFS_ROOTINODE_FSOP);
      rootInode := root;
      ModeMeaning(DEVFS_ROOTINODE_FSOP);
    }
  }
}
