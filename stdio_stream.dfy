/** Buffer bookkeeping of a PDCLib stream: `_PDCLIB_seek` (ISO C99 7.19.9.2,
    the fseek back end) and `fgetc` (ISO C99 7.19.7.1).

    The operating system's `lseek` and PDCLib's `_PDCLIB_prepread` are not part
    of this model: their answers are parameters, and `lseek` only records that
    it was asked. */
module StdioStream {

  type byte = x: int | 0 <= x < 256

  /** The value of EOF in PDCLib. */
  const EOF: int := -1

  /** The three legal `whence` arguments of a seek. */
  const SEEK_SET: int := 0
  const SEEK_CUR: int := 1
  const SEEK_END: int := 2

  predicate ValidWhence(whence: int)
  {
    whence == SEEK_SET || whence == SEEK_CUR || whence == SEEK_END
  }

  /** The values `_PDCLIB_errno` takes in this model. */
  datatype Errno = NoError | EINVAL | EUNKNOWN

  /** The global `_PDCLIB_errno`. */
  class ErrnoCell {
    var value: Errno

    constructor ()
      ensures value == NoError
    {
      value := NoError;
    }
  }

  /** One request made to the system call `lseek`. */
  datatype LseekCall = LseekCall(handle: int, offset: int, whence: int)

  /** The operating system as far as a seek sees it: every `lseek` request is
      logged, and its answer is supplied by the caller of the model. */
  class Os {
    var lseekCalls: seq<LseekCall>

    constructor ()
      ensures lseekCalls == []
    {
      lseekCalls := [];
    }

    method Lseek(handle: int, offset: int, whence: int, answer: int) returns (rc: int)
      modifies this
      ensures lseekCalls == old(lseekCalls) + [LseekCall(handle, offset, whence)]
      ensures rc == answer
    {
      lseekCalls := lseekCalls + [LseekCall(handle, offset, whence)];
      rc := answer;
    }
  }

  datatype Option<T> = None | Some(value: T)

  /** A read from the unget buffer as `fgetc` is written: the character in
      the slot at the unget index, and the index after the post-decrement;
      None when that slot lies outside the buffer. With the pushed-back
      characters in `ungetbuf[..ungetidx]`, that slot is the one just above
      the last of them. */
  function UngetAsWritten(ungetbuf: seq<byte>, ungetidx: nat): Option<(byte, nat)>
  {
    if 0 < ungetidx < |ungetbuf| then Some((ungetbuf[ungetidx], ungetidx - 1)) else None
  }

  /** A read from the unget buffer with a pre-decrement: the last
      pushed-back character, and the index after it is taken. */
  function UngetIntended(ungetbuf: seq<byte>, ungetidx: nat): Option<(byte, nat)>
  {
    if 0 < ungetidx <= |ungetbuf| then Some((ungetbuf[ungetidx - 1], ungetidx - 1)) else None
  }

  /** One character pushed back into a one-slot buffer leaves the index at
      1, and the read as written falls outside the buffer; in a two-slot
      buffer it returns the slot above the pushed-back `x`, a character that
      was never pushed back. */
  lemma AsWrittenReadsPastPushedBack(x: byte, y: byte)
    requires x != y
    ensures UngetAsWritten([x], 1) == None
    ensures UngetAsWritten([x, y], 1) == Some((y, 0)) && UngetAsWritten([x, y], 1).value.0 != x
  {
  }

  /** The corrected read takes the pushed-back characters last in, first
      out: the last one is returned and the rest stay pushed back. */
  lemma UngetIntendedIsLifo(ungetbuf: seq<byte>, pushed: seq<byte>, ungetidx: nat)
    requires 0 < ungetidx <= |ungetbuf| && pushed == ungetbuf[..ungetidx]
    ensures UngetIntended(ungetbuf, ungetidx) == Some((pushed[|pushed| - 1], (ungetidx - 1) as nat))
    ensures ungetbuf[..ungetidx - 1] + [pushed[|pushed| - 1]] == pushed
  {
    assert ungetbuf[..ungetidx - 1] + [pushed[|pushed| - 1]] == ungetbuf[..ungetidx];
  }

  /** The fields of `struct _PDCLIB_file_t` that a seek and a character read
      touch: the read buffer with its read index and fill mark, the unget
      buffer with its index, and the recorded file position. */
  class Stream {
    var handle: int
    var buffer: array<byte>
    var bufidx: nat
    var bufend: nat
    var posOffset: int
    var ungetbuf: array<byte>
    var ungetidx: nat

    ghost predicate Valid()
      reads this
    {
      bufidx <= bufend <= buffer.Length && ungetidx <= ungetbuf.Length
    }

    constructor (handle: int, bufsize: nat, ungetsize: nat)
      requires ungetsize > 0
      ensures Valid() && fresh(buffer) && fresh(ungetbuf)
      ensures this.handle == handle && buffer.Length == bufsize && ungetbuf.Length == ungetsize
      ensures bufidx == 0 && bufend == 0 && ungetidx == 0 && posOffset == 0
    {
      this.handle := handle;
      buffer := new byte[bufsize];
      ungetbuf := new byte[ungetsize];
      bufidx, bufend, ungetidx, posOffset := 0, 0, 0, 0;
    }

    /** `_PDCLIB_seek`: an illegal `whence` is refused with EINVAL before the
        system is asked; a successful `lseek` empties both buffers and records
        the new offset; a failed one sets EUNKNOWN and leaves the stream as it
        was. `answer` is what `lseek` returns. */
    method Seek(os: Os, errno: ErrnoCell, offset: int, whence: int, answer: int) returns (r: int)
      requires Valid()
      modifies this, os, errno
      ensures Valid()
      ensures buffer == old(buffer) && ungetbuf == old(ungetbuf) && handle == old(handle)
      ensures !ValidWhence(whence) ==>
        r == EOF && errno.value == EINVAL && unchanged(this) && unchanged(os)
      ensures ValidWhence(whence) ==>
        os.lseekCalls == old(os.lseekCalls) + [LseekCall(handle, offset, whence)]
      ensures ValidWhence(whence) && answer != EOF ==>
        && r == answer && errno.value == old(errno.value)
        && ungetidx == 0 && bufidx == 0 && bufend == 0 && posOffset == answer
      ensures ValidWhence(whence) && answer == EOF ==>
        r == EOF && errno.value == EUNKNOWN && unchanged(this)
    {
      if !ValidWhence(whence) {
        errno.value := EINVAL;
        return EOF;
      }
      var rc := os.Lseek(handle, offset, whence, answer);
      if rc != EOF {
        ungetidx := 0;
        bufidx := 0;
        bufend := 0;
        posOffset := rc;
        return rc;
      }
      errno.value := EUNKNOWN;
      r := EOF;
    }

    /** `fgetc` as written: when the stream cannot be prepared for reading
        the result is EOF and nothing moves; otherwise, while the unget index
        is positive, the slot of `ungetbuf` at the current index is taken,
        ahead of the read buffer, and the index drops by one; only when it
        is 0 is the next buffered character taken (the read index grows by
        one). `prepread` is what `_PDCLIB_prepread` returns; when it is not
        EOF the stream has a character ready. The unget slot read must lie
        inside the buffer. */
    method Fgetc(prepread: int) returns (c: int)
      requires Valid()
      requires prepread != EOF && ungetidx == 0 ==> bufidx < bufend
      requires prepread != EOF && ungetidx > 0 ==> ungetidx < ungetbuf.Length
      modifies this
      ensures Valid()
      ensures buffer == old(buffer) && ungetbuf == old(ungetbuf) && handle == old(handle)
      ensures bufend == old(bufend) && posOffset == old(posOffset)
      ensures prepread == EOF ==> c == EOF && unchanged(this)
      ensures prepread != EOF ==> 0 <= c < 256 && c != EOF
      ensures prepread != EOF && old(ungetidx) > 0 ==>
        c == ungetbuf[old(ungetidx)] && ungetidx == old(ungetidx) - 1 && bufidx == old(bufidx)
        && UngetAsWritten(ungetbuf[..], old(ungetidx)) == Some((c as byte, ungetidx))
      ensures prepread != EOF && old(ungetidx) == 0 ==>
        c == buffer[old(bufidx)] && bufidx == old(bufidx) + 1 && ungetidx == 0
    {
      if prepread == EOF {
        return EOF;
      }
      if ungetidx > 0 {
        c := ungetbuf[ungetidx];
        ungetidx := ungetidx - 1;
        return;
      }
      c := buffer[bufidx];
      bufidx := bufidx + 1;
    }

    /** `fgetc` with the unget index pre-decremented: a pushed-back character
        is the last one pushed back, it is taken ahead of the read buffer,
        and the others stay pushed back. */
    method FgetcIntended(prepread: int) returns (c: int)
      requires Valid()
      requires prepread != EOF && ungetidx == 0 ==> bufidx < bufend
      modifies this
      ensures Valid()
      ensures buffer == old(buffer) && ungetbuf == old(ungetbuf) && handle == old(handle)
      ensures bufend == old(bufend) && posOffset == old(posOffset)
      ensures prepread == EOF ==> c == EOF && unchanged(this)
      ensures prepread != EOF ==> 0 <= c < 256 && c != EOF
      ensures prepread != EOF && old(ungetidx) > 0 ==>
        && ungetidx == old(ungetidx) - 1 && bufidx == old(bufidx)
        && ungetbuf[..ungetidx] + [c as byte] == ungetbuf[..old(ungetidx)]
        && UngetIntended(ungetbuf[..], old(ungetidx)) == Some((c as byte, ungetidx))
      ensures prepread != EOF && old(ungetidx) == 0 ==>
        c == buffer[old(bufidx)] && bufidx == old(bufidx) + 1 && ungetidx == 0
    {
      if prepread == EOF {
        return EOF;
      }
      if ungetidx > 0 {
        ungetidx := ungetidx - 1;
        c := ungetbuf[ungetidx];
        assert ungetbuf[..ungetidx] + [c as byte] == ungetbuf[..ungetidx + 1];
        return;
      }
      c := buffer[bufidx];
      bufidx := bufidx + 1;
    }
  }
}
