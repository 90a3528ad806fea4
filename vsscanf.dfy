/** The matching loop of PDCLib's `vsscanf` (ISO C99 7.19.6.2): ordinary
    characters of the format are matched against the input, white space in
    the format skips any run of white space in the input, and each `%` is
    handed to the conversion engine `_PDCLIB_scan`.

    The conversion engine is not part of this model: it is a parameter, a
    function from the input, the format, the position of the `%` and the
    scan status to its answer. The input and the format are C strings, given
    here without their terminating NUL. */
module Vsscanf {

  const EOF: int := -1

  /** `isspace` in the "C" locale. */
  predicate IsSpace(c: char)
  {
    c == ' ' || c == '\t' || c == '\n' || c == '\U{B}' || c == '\U{C}' || c == '\r'
  }

  /** `*status.s`: the input character at `pos`, NUL past the end. */
  function Peek(s: seq<char>, pos: nat): char
  {
    if pos < |s| then s[pos] else '\0'
  }

  /** The fields of `struct _PDCLIB_status_t` the loop uses: the number of
      conversions `n`, the number of characters consumed `i`, the input
      position `pos` (the pointer `status.s`), and the values conversions
      have stored through their argument pointers, in order. */
  datatype Status = Status(n: int, i: nat, pos: nat, stored: seq<int>)

  const Initial: Status := Status(0, 0, 0, [])

  /** What `_PDCLIB_scan` answers: the format position to resume at, the
      position of the `%` itself when it declines the specifier, or `None`
      (a NULL pointer) on an input error; and the status it leaves. */
  datatype Reply = Reply(rc: Option<nat>, status: Status)

  datatype Option<T> = None | Some(value: T)

  type Scanner = (seq<char>, seq<char>, nat, Status) -> Reply

  /** The conversion engine either declines, or fails, or resumes strictly
      after the `%` and not past the end of the format. */
  ghost predicate Progresses(scan: Scanner, s: seq<char>, format: seq<char>)
  {
    forall fpos: nat, st: Status ::
      fpos < |format| ==>
        var r := scan(s, format, fpos, st);
        r.rc.Some? ==> r.rc.value == fpos || fpos < r.rc.value <= |format|
  }

  /** The first input position at or after `pos` that is not white space. */
  function SkipSpace(s: seq<char>, pos: nat): (q: nat)
    ensures pos <= q && !IsSpace(Peek(s, q))
    ensures forall k :: pos <= k < q ==> IsSpace(Peek(s, k))
    decreases if pos <= |s| then |s| - pos else 0
  {
    if IsSpace(Peek(s, pos)) then SkipSpace(s, pos + 1) else pos
  }

  /** What the loop returns when it starts at format position `fpos` with
      status `st`, together with the status it ends with. */
  function Match(s: seq<char>, format: seq<char>, fpos: nat, st: Status, scan: Scanner): (Status, int)
    requires fpos <= |format| && Progresses(scan, s, format)
    decreases |format| - fpos
  {
    if fpos == |format| then (st, st.n)
    else
      var c := format[fpos];
      var reply := if c == '%' then scan(s, format, fpos, st) else Reply(Some(fpos), st);
      if reply.rc == Some(fpos) then
        var st1 := reply.status;
        if IsSpace(c) then
          var q := SkipSpace(s, st1.pos);
          Match(s, format, fpos + 1, st1.(pos := q, i := st1.i + (q - st1.pos)), scan)
        else if Peek(s, st1.pos) != c then (st1, st1.n)
        else Match(s, format, fpos + 1, st1.(pos := st1.pos + 1, i := st1.i + 1), scan)
      else if reply.rc.None? then
        (reply.status, if reply.status.n == 0 then EOF else reply.status.n)
      else Match(s, format, reply.rc.value, reply.status, scan)
  }

  /** `vsscanf`: the number of conversions (or EOF for an input error before
      the first one), and the values stored through the argument pointers. */
  method VScan(s: seq<char>, format: seq<char>, scan: Scanner) returns (n: int, stored: seq<int>)
    requires '\0' !in format && Progresses(scan, s, format)
    ensures (n, stored) == (Match(s, format, 0, Initial, scan).1, Match(s, format, 0, Initial, scan).0.stored)
  {
    var st := Initial;
    var f := 0;
    while f < |format|
      invariant f <= |format|
      invariant Match(s, format, f, st, scan) == Match(s, format, 0, Initial, scan)
      decreases |format| - f
    {
      var reply := if format[f] == '%' then scan(s, format, f, st) else Reply(Some(f), st);
      if reply.rc == Some(f) {
        // No conversion specifier: match verbatim.
        st := reply.status;
        if IsSpace(format[f]) {
          // White space in the format skips all white space in the input;
          // no white space in the input is no matching error.
          ghost var start := st.pos;
          ghost var i0 := st.i;
          while IsSpace(Peek(s, st.pos))
            invariant start <= st.pos <= SkipSpace(s, start)
            invariant st.i == i0 + (st.pos - start)
            invariant st == reply.status.(pos := st.pos, i := st.i)
            decreases if st.pos <= |s| then |s| - st.pos else 0
          {
            st := st.(pos := st.pos + 1, i := st.i + 1);
          }
        } else {
          if Peek(s, st.pos) != format[f] {
            // Matching error.
            return st.n, st.stored;
          }
          st := st.(pos := st.pos + 1, i := st.i + 1);
        }
        f := f + 1;
      } else {
        st := reply.status;
        if reply.rc.None? {
          // An input error before any conversion gives EOF.
          if st.n == 0 {
            st := st.(n := EOF);
          }
          break;
        }
        // Continue after the conversion specifier.
        f := reply.rc.value;
      }
    }
    n, stored := st.n, st.stored;
  }

  /** White space in the format never causes a matching failure: it skips
      the whole run of input white space, and an empty run is as good as any
      other. */
  lemma SpaceSkipsRun(s: seq<char>, format: seq<char>, fpos: nat, st: Status, scan: Scanner)
    requires fpos < |format| && Progresses(scan, s, format) && IsSpace(format[fpos])
    ensures var q := SkipSpace(s, st.pos);
      Match(s, format, fpos, st, scan) == Match(s, format, fpos + 1, st.(pos := q, i := st.i + (q - st.pos)), scan)
    ensures !IsSpace(Peek(s, st.pos)) ==> Match(s, format, fpos, st, scan) == Match(s, format, fpos + 1, st, scan)
  {
    assert format[fpos] != '%';
  }

  /** An ordinary character that differs from the input character ends the
      scan with the number of conversions so far. */
  lemma MismatchStops(s: seq<char>, format: seq<char>, fpos: nat, st: Status, scan: Scanner)
    requires fpos < |format| && Progresses(scan, s, format)
    requires format[fpos] != '%' && !IsSpace(format[fpos]) && Peek(s, st.pos) != format[fpos]
    ensures Match(s, format, fpos, st, scan) == (st, st.n)
  {
  }

  /** A `%` the engine declines is matched like any other character, after
      whatever the engine did to the status. */
  lemma DeclinedPercentIsLiteral(s: seq<char>, format: seq<char>, fpos: nat, st: Status, scan: Scanner)
    requires fpos < |format| && Progresses(scan, s, format) && format[fpos] == '%'
    requires scan(s, format, fpos, st).rc == Some(fpos)
    ensures var st1 := scan(s, format, fpos, st).status;
      Match(s, format, fpos, st, scan) ==
        if Peek(s, st1.pos) != '%' then (st1, st1.n)
        else Match(s, format, fpos + 1, st1.(pos := st1.pos + 1, i := st1.i + 1), scan)
  {
    assert !IsSpace('%');
  }

  /** An input error reported by the engine ends the scan with EOF when no
      conversion has been made, and with the count otherwise. */
  lemma InputErrorResult(s: seq<char>, format: seq<char>, fpos: nat, st: Status, scan: Scanner)
    requires fpos < |format| && Progresses(scan, s, format) && format[fpos] == '%'
    requires scan(s, format, fpos, st).rc.None?
    ensures var st1 := scan(s, format, fpos, st).status;
      Match(s, format, fpos, st, scan).1 == if st1.n == 0 then EOF else st1.n
  {
  }

  /** A run of `k` ordinary characters that the input matches one for one
      advances the input position and the consumed count by exactly `k`. */
  lemma {:induction false} LiteralRun(s: seq<char>, format: seq<char>, fpos: nat, st: Status, scan: Scanner, k: nat)
    requires Progresses(scan, s, format) && fpos + k <= |format|
    requires forall j :: fpos <= j < fpos + k ==>
      format[j] != '%' && !IsSpace(format[j]) && Peek(s, st.pos + (j - fpos)) == format[j]
    ensures Match(s, format, fpos, st, scan)
      == Match(s, format, fpos + k, st.(pos := st.pos + k, i := st.i + k), scan)
    decreases k
  {
    if k > 0 {
      var st1 := st.(pos := st.pos + 1, i := st.i + 1);
      assert format[fpos] != '%' && !IsSpace(format[fpos]) && Peek(s, st.pos) == format[fpos];
      assert Match(s, format, fpos, st, scan) == Match(s, format, fpos + 1, st1, scan);
      forall j | fpos + 1 <= j < fpos + k
        ensures format[j] != '%' && !IsSpace(format[j]) && Peek(s, st1.pos + (j - (fpos + 1))) == format[j]
      {
        assert st1.pos + (j - (fpos + 1)) == st.pos + (j - fpos);
      }
      LiteralRun(s, format, fpos + 1, st1, scan, k - 1);
      assert st1.(pos := st1.pos + (k - 1), i := st1.i + (k - 1)) == st.(pos := st.pos + k, i := st.i + k);
    }
  }

  /** A whole scan that matches `k` ordinary characters one for one and then
      meets a mismatch: `vsscanf` returns 0, having consumed exactly `k`
      characters and stored nothing. */
  lemma MatchedPrefixThenMismatch(s: seq<char>, format: seq<char>, scan: Scanner, k: nat)
    requires Progresses(scan, s, format) && k < |format|
    requires forall j :: 0 <= j < k ==> format[j] != '%' && !IsSpace(format[j]) && Peek(s, j) == format[j]
    requires format[k] != '%' && !IsSpace(format[k]) && Peek(s, k) != format[k]
    ensures Match(s, format, 0, Initial, scan) == (Status(0, k, k, []), 0)
  {
    LiteralRun(s, format, 0, Initial, scan, k);
    MismatchStops(s, format, k, Status(0, k, k, []), scan);
  }

  /** Without a `%` in the rest of the format the count of conversions is
      never changed: the scan ends, by a mismatch or at the end of the
      format, with the count it started with, and nothing more is stored. */
  lemma {:induction false} LiteralsKeepCount(s: seq<char>, format: seq<char>, fpos: nat, st: Status, scan: Scanner)
    requires fpos <= |format| && Progresses(scan, s, format)
    requires forall j :: fpos <= j < |format| ==> format[j] != '%'
    ensures Match(s, format, fpos, st, scan).1 == st.n
    ensures Match(s, format, fpos, st, scan).0.n == st.n
    ensures Match(s, format, fpos, st, scan).0.stored == st.stored
    decreases |format| - fpos
  {
    if fpos < |format| {
      var c := format[fpos];
      if IsSpace(c) {
        var q := SkipSpace(s, st.pos);
        LiteralsKeepCount(s, format, fpos + 1, st.(pos := q, i := st.i + (q - st.pos)), scan);
      } else if Peek(s, st.pos) == c {
        LiteralsKeepCount(s, format, fpos + 1, st.(pos := st.pos + 1, i := st.i + 1), scan);
      }
    }
  }

  /** A stand-in for the conversion engine, enough for the library's own
      test cases: `%n` stores the count of consumed characters without
      counting as a conversion, `%%` matches a literal `%`, anything else is
      declined. */
  function TestScanner(s: seq<char>, format: seq<char>, fpos: nat, st: Status): Reply
  {
    if fpos + 1 < |format| && format[fpos + 1] == 'n' then
      Reply(Some(fpos + 2), st.(stored := st.stored + [st.i]))
    else if fpos + 1 < |format| && format[fpos + 1] == '%' then
      if Peek(s, st.pos) == '%' then Reply(Some(fpos + 2), st.(pos := st.pos + 1, i := st.i + 1))
      else Reply(None, st)
    else Reply(Some(fpos), st)
  }

  lemma TestScannerProgresses(s: seq<char>, format: seq<char>)
    ensures Progresses(TestScanner, s, format)
  {
  }

  /** `sscanf("abcdef", "abcdef%n", &x)` returns 0 and sets x to 6. */
  lemma ExampleExactLiteral(s: seq<char>, f: seq<char>)
    requires s == "abcdef" && f == "abcdef%n"
    ensures Progresses(TestScanner, s, f) &&
      Match(s, f, 0, Initial, TestScanner) == (Status(0, 6, 6, [6]), 0)
  {
    TestScannerProgresses(s, f);
    LiteralRun(s, f, 0, Initial, TestScanner, 6);
    var st6 := Status(0, 6, 6, []);
    assert Initial.(pos := 0 + 6, i := 0 + 6) == st6;
    assert f[6] == '%' && f[7] == 'n';
    assert TestScanner(s, f, 6, st6) == Reply(Some(8), Status(0, 6, 6, [6]));
  }

  /** A trailing `%n` stores the consumed count and ends the scan. */
  lemma TestTrailingCount(s: seq<char>, format: seq<char>, fpos: nat, st: Status)
    requires fpos + 2 == |format| && format[fpos] == '%' && format[fpos + 1] == 'n'
    ensures Progresses(TestScanner, s, format) &&
      Match(s, format, fpos, st, TestScanner) == (st.(stored := st.stored + [st.i]), st.n)
  {
    TestScannerProgresses(s, format);
    assert TestScanner(s, format, fpos, st) == Reply(Some(|format|), st.(stored := st.stored + [st.i]));
  }

  /** `sscanf("abc  def", "abc def%n", &x)` returns 0 and sets x to 8: one
      blank in the format skips two in the input. */
  lemma ExampleSpaceRun(s: seq<char>, f: seq<char>)
    requires s == "abc  def" && f == "abc def%n"
    ensures Progresses(TestScanner, s, f) &&
      Match(s, f, 0, Initial, TestScanner) == (Status(0, 8, 8, [8]), 0)
  {
    TestScannerProgresses(s, f);
    var st3, st5, st8 := Status(0, 3, 3, []), Status(0, 5, 5, []), Status(0, 8, 8, []);
    LiteralRun(s, f, 0, Initial, TestScanner, 3);
    assert Initial.(pos := 0 + 3, i := 0 + 3) == st3;
    assert SkipSpace(s, 5) == 5;
    assert SkipSpace(s, 3) == 5;
    SpaceSkipsRun(s, f, 3, st3, TestScanner);
    assert st3.(pos := 5, i := 3 + (5 - 3)) == st5;
    LiteralRun(s, f, 4, st5, TestScanner, 3);
    assert st5.(pos := 5 + 3, i := 5 + 3) == st8;
    TestTrailingCount(s, f, 7, st8);
    assert st8.(stored := st8.stored + [st8.i]) == Status(0, 8, 8, [8]);
  }

  /** `sscanf("abcdef", "abc def%n", &x)` returns 0 and sets x to 6: a blank
      in the format also matches no white space at all. */
  lemma ExampleEmptySpaceRun(s: seq<char>, f: seq<char>)
    requires s == "abcdef" && f == "abc def%n"
    ensures Progresses(TestScanner, s, f) &&
      Match(s, f, 0, Initial, TestScanner) == (Status(0, 6, 6, [6]), 0)
  {
    TestScannerProgresses(s, f);
    var st3, st6 := Status(0, 3, 3, []), Status(0, 6, 6, []);
    LiteralRun(s, f, 0, Initial, TestScanner, 3);
    assert Initial.(pos := 0 + 3, i := 0 + 3) == st3;
    assert Peek(s, 3) == 'd';
    SpaceSkipsRun(s, f, 3, st3, TestScanner);
    LiteralRun(s, f, 4, st3, TestScanner, 3);
    assert st3.(pos := 3 + 3, i := 3 + 3) == st6;
    TestTrailingCount(s, f, 7, st6);
    assert st6.(stored := st6.stored + [st6.i]) == Status(0, 6, 6, [6]);
  }

  /** `sscanf("abc%def", "abc%%def%n", &x)` returns 0 and sets x to 7. */
  lemma ExamplePercentLiteral(s: seq<char>, f: seq<char>)
    requires s == "abc%def" && f == "abc%%def%n"
    ensures Progresses(TestScanner, s, f) &&
      Match(s, f, 0, Initial, TestScanner) == (Status(0, 7, 7, [7]), 0)
  {
    TestScannerProgresses(s, f);
    var st3, st4, st7 := Status(0, 3, 3, []), Status(0, 4, 4, []), Status(0, 7, 7, []);
    LiteralRun(s, f, 0, Initial, TestScanner, 3);
    assert Initial.(pos := 0 + 3, i := 0 + 3) == st3;
    assert f[3] == '%' && f[4] == '%' && Peek(s, 3) == '%';
    assert TestScanner(s, f, 3, st3) == Reply(Some(5), st4);
    assert Match(s, f, 3, st3, TestScanner) == Match(s, f, 5, st4, TestScanner);
    LiteralRun(s, f, 5, st4, TestScanner, 3);
    assert st4.(pos := 4 + 3, i := 4 + 3) == st7;
    TestTrailingCount(s, f, 8, st7);
    assert st7.(stored := st7.stored + [st7.i]) == Status(0, 7, 7, [7]);
  }
}
