/** Model of the positioning half of tail(1): forward() and rlines().
    A file handle is a value: the bytes it can deliver, a cursor, the sticky
    error flag of the stdio stream, and the outcomes the host would give. */
module TailForward {
  import opened Wrappers

  newtype byte = x: int | 0 <= x < 256

  /** The newline byte. */
  const NL: byte := 10
  /** What getc returns at end of input or on a read error. */
  const EOF: int := -1

  /** The four display styles of tail. */
  datatype Style = FBytes | FLines | RBytes | RLines

  /** The part of `struct stat` the core reads. */
  datatype Stat = Stat(isReg: bool, size: nat, dev: int, ino: int, nlink: int)

  /** A readable stdio stream over a file.
      `failing`: reading past the last byte reports an error rather than EOF.
      `seekOk`: whether fseeko on this stream succeeds.
      `isStdin`: the stream is standard input (descriptor 0). */
  datatype Stream = Stream(data: seq<byte>, pos: nat, error: bool,
                           failing: bool, seekOk: bool, isStdin: bool)
  {
    predicate Valid() { pos <= |data| }

    /** The bytes a reader would still get from the cursor on. */
    function Rest(): seq<byte>
      requires Valid()
    {
      data[pos..]
    }
  }

  /** What the engine writes: bytes, file headers, reports through ierr,
      and the output of the cyclic bytes()/lines() collaborators. */
  datatype Event = Byte(b: byte) | Header(name: string) | ReadError(name: string)
                 | Delegated(style: Style, count: nat)

  function Bytes(s: seq<byte>): (r: seq<Event>)
    ensures |r| == |s|
    ensures forall k :: 0 <= k < |s| ==> r[k] == Byte(s[k])
  {
    if s == [] then [] else [Byte(s[0])] + Bytes(s[1..])
  }

  lemma {:induction false} BytesAppend(a: seq<byte>, b: seq<byte>)
    ensures Bytes(a + b) == Bytes(a) + Bytes(b)
  {
    assert |Bytes(a + b)| == |Bytes(a) + Bytes(b)|;
    forall k | 0 <= k < |a| + |b|
      ensures Bytes(a + b)[k] == (Bytes(a) + Bytes(b))[k]
    {
    }
  }

  /** No file header among the events. */
  predicate NoHeader(es: seq<Event>)
  {
    forall k :: 0 <= k < |es| ==> !es[k].Header?
  }

  /** One getc: the next byte and the advanced stream, or EOF with the
      error flag raised when the stream fails at its end. */
  function Getc(s: Stream): (r: (int, Stream))
    requires s.Valid()
    ensures r.1.Valid() && r.1.data == s.data
    ensures r.1.failing == s.failing && r.1.seekOk == s.seekOk && r.1.isStdin == s.isStdin
    ensures s.pos < |s.data| ==> r.0 == s.data[s.pos] as int && r.1 == s.(pos := s.pos + 1)
    ensures s.pos == |s.data| ==> r.0 == EOF && r.1 == s.(error := s.error || s.failing)
  {
    if s.pos < |s.data| then (s.data[s.pos] as int, s.(pos := s.pos + 1))
    else (EOF, s.(error := s.error || s.failing))
  }

  /** The stream after every remaining byte has been read. */
  function Drained(s: Stream): (t: Stream)
    requires s.Valid()
    ensures t.Valid() && t.Rest() == [] && t.data == s.data
  {
    s.(pos := |s.data|, error := s.error || s.failing)
  }

  /** `while ((ch = getc(fp)) != EOF) putchar(ch)`, and the discarding form
      `while (getc(fp) != EOF);`: every remaining byte, in order. */
  method ReadAll(s0: Stream) returns (s: Stream, got: seq<byte>)
    requires s0.Valid()
    ensures got == s0.Rest()
    ensures s == Drained(s0)
  {
    s := s0;
    got := [];
    while true
      invariant s.Valid() && s == s0.(pos := s.pos)
      invariant s0.pos <= s.pos
      invariant got == s0.data[s0.pos..s.pos]
      decreases |s.data| - s.pos
    {
      var r := Getc(s);
      s := r.1;
      if r.0 == EOF {
        break;
      }
      got := got + [r.0 as byte];
    }
  }

  // ----- newline counting -----

  function CountNL(s: seq<byte>): (n: nat)
    ensures n <= |s|
  {
    if s == [] then 0 else CountNL(s[..|s| - 1]) + (if s[|s| - 1] == NL then 1 else 0)
  }

  lemma {:induction false} CountNLAppend(a: seq<byte>, b: seq<byte>)
    ensures CountNL(a + b) == CountNL(a) + CountNL(b)
    decreases |b|
  {
    if b == [] {
      assert a + b == a;
    } else {
      assert (a + b)[..|a + b| - 1] == a + b[..|b| - 1];
      CountNLAppend(a, b[..|b| - 1]);
    }
  }

  lemma CountNLOne(b: byte)
    ensures CountNL([b]) == if b == NL then 1 else 0
  {
    assert [b][..0] == [];
  }

  /** Counting from the front: a slice that grows by one byte. */
  lemma CountNLStep(d: seq<byte>, i: nat, j: nat)
    requires i <= j < |d|
    ensures CountNL(d[i..j + 1]) == CountNL(d[i..j]) + (if d[j] == NL then 1 else 0)
  {
    assert d[i..j + 1] == d[i..j] + [d[j]];
    CountNLAppend(d[i..j], [d[j]]);
    CountNLOne(d[j]);
  }

  /** Counting over two adjacent slices. */
  lemma CountNLSplit(d: seq<byte>, i: nat, j: nat, k: nat)
    requires i <= j <= k <= |d|
    ensures CountNL(d[i..k]) == CountNL(d[i..j]) + CountNL(d[j..k])
  {
    assert d[i..j] + d[j..k] == d[i..k];
    CountNLAppend(d[i..j], d[j..k]);
  }

  /** Counting from the front: a prefix that grows by one byte. */
  lemma CountNLPrefixStep(d: seq<byte>, i: nat)
    requires i < |d|
    ensures CountNL(d[..i + 1]) == CountNL(d[..i]) + (if d[i] == NL then 1 else 0)
  {
    assert d[..i + 1] == d[..i] + [d[i]];
    CountNLAppend(d[..i], [d[i]]);
    CountNLOne(d[i]);
  }

  /** Counting from the back: a slice that grows by one byte at its start. */
  lemma CountNLStepBack(d: seq<byte>, i: nat, j: nat)
    requires i < j <= |d|
    ensures CountNL(d[i..j]) == CountNL(d[i + 1..j]) + (if d[i] == NL then 1 else 0)
  {
    assert d[i..j] == [d[i]] + d[i + 1..j];
    CountNLAppend([d[i]], d[i + 1..j]);
    CountNLOne(d[i]);
  }

  // ----- FLINES: just past the n-th newline of the rest -----

  /** The index just past the n-th newline at or after i, or |d| when the rest
      holds fewer than n newlines. */
  function SkipLines(d: seq<byte>, i: nat, n: nat): (j: nat)
    requires i <= |d|
    ensures i <= j <= |d|
    decreases |d| - i
  {
    if n == 0 || i == |d| then i
    else if d[i] == NL then SkipLines(d, i + 1, n - 1)
    else SkipLines(d, i + 1, n)
  }

  /** What SkipLines means: when the rest has at least n newlines, the cursor
      lands one past the n-th of them; otherwise it reaches the end. */
  lemma {:induction false} SkipLinesSpec(d: seq<byte>, i: nat, n: nat)
    requires i <= |d|
    ensures var j := SkipLines(d, i, n);
      && CountNL(d[i..j]) == (if CountNL(d[i..]) < n then CountNL(d[i..]) else n)
      && (n <= CountNL(d[i..]) && n > 0 ==> d[j - 1] == NL)
      && (CountNL(d[i..]) < n ==> j == |d|)
    decreases |d| - i
  {
    var j := SkipLines(d, i, n);
    if n == 0 || i == |d| {
      assert d[i..j] == [];
    } else {
      CountNLStepBack(d, i, |d|);
      assert d[i..] == d[i..|d|];
      assert d[i + 1..] == d[i + 1..|d|];
      var n' := if d[i] == NL then n - 1 else n;
      SkipLinesSpec(d, i + 1, n');
      CountNLStepBack(d, i, j);
      if n' == 0 {
        assert j == i + 1;
      }
    }
  }

  // ----- RLINES: the reverse scan of rlines() -----

  /** Scanning backward from index i, with n newlines still to find: the
      first index of the last lines, or 0 when the scan reaches the start. */
  function BackScan(d: seq<byte>, i: int, n: nat): (k: nat)
    requires -1 <= i < |d| && n >= 1
    ensures k <= i + 1
    decreases i + 1
  {
    if i < 0 then 0
    else if d[i] == NL && n == 1 then i + 1
    else BackScan(d, i - 1, if d[i] == NL then n - 1 else n)
  }

  /** Where rlines() starts displaying: the scan begins at size-2, so the
      last byte never counts as a line end. */
  function LastLinesStart(d: seq<byte>, n: nat): (k: nat)
    requires n >= 1
    ensures k <= |d|
  {
    if |d| == 0 then 0 else BackScan(d, |d| - 2, n)
  }

  lemma {:induction false} BackScanSpec(d: seq<byte>, i: int, n: nat)
    requires -1 <= i < |d| && n >= 1
    ensures var k := BackScan(d, i, n);
      && (n <= CountNL(d[..i + 1]) ==> k >= 1 && d[k - 1] == NL && CountNL(d[k - 1..i + 1]) == n)
      && (CountNL(d[..i + 1]) < n ==> k == 0)
    decreases i + 1
  {
    if i < 0 {
      assert d[..i + 1] == [];
    } else {
      var k := BackScan(d, i, n);
      CountNLPrefixStep(d, i);
      if d[i] == NL && n == 1 {
        CountNLStep(d, i, i);
        assert d[i..i] == [];
      } else {
        var n' := if d[i] == NL then n - 1 else n;
        assert k == BackScan(d, i - 1, n');
        BackScanSpec(d, i - 1, n');
        assert d[..i - 1 + 1] == d[..i];
        if n <= CountNL(d[..i + 1]) {
          assert n' <= CountNL(d[..i]);
          assert k >= 1 && d[k - 1] == NL;
          assert d[k - 1..i - 1 + 1] == d[k - 1..i];
          CountNLStep(d, k - 1, i);
        }
      }
    }
  }

  /** What rlines() displays: when the file, without its last byte, holds at
      least n newlines, the display starts just past the n-th newline counted
      from the back; otherwise it is the whole file. */
  lemma LastLinesStartSpec(d: seq<byte>, n: nat)
    requires n >= 1 && |d| >= 1
    ensures var k := LastLinesStart(d, n);
      && (n <= CountNL(d[..|d| - 1]) ==> 1 <= k < |d| && d[k - 1] == NL && CountNL(d[k - 1..|d| - 1]) == n)
      && (CountNL(d[..|d| - 1]) < n ==> k == 0)
  {
    BackScanSpec(d, |d| - 2, n);
  }

  /** rlines(): the backward newline scan over a regular file of `size`
      bytes, the display of the tail it finds, and the final seek to `size`. */
  method RLinesScan(s0: Stream, name: string, n: nat, size: nat) returns (s: Stream, out: seq<Event>)
    requires s0.Valid() && n >= 1 && size == |s0.data|
    ensures size == 0 ==> s == s0 && out == []
    ensures size > 0 ==> out == Bytes(s0.data[LastLinesStart(s0.data, n)..]) +
                                 (if s0.seekOk then [] else [ReadError(name)])
    ensures size > 0 ==> s == if s0.seekOk then s0.(pos := size) else s0
  {
    s := s0;
    out := [];
    if size == 0 {
      return;
    }
    var d := s0.data;
    var curoff: int := size - 2;
    var left := n;
    ghost var k0 := LastLinesStart(d, n);
    while curoff >= 0
      invariant -1 <= curoff < size && left >= 1
      invariant BackScan(d, curoff, left) == k0
      decreases curoff + 1
    {
      if d[curoff] == NL {
        if left == 1 {
          break;
        }
        left := left - 1;
      }
      curoff := curoff - 1;
    }
    // `curoff` is the index of the newline that ends the scan, or -1.
    curoff := curoff + 1;
    assert curoff == k0;
    assert size == |d|;
    out := Bytes(d[curoff..]);
    if !s0.seekOk {
      out := out + [ReadError(name)];
      return;
    }
    s := s0.(pos := size);
  }

  // ----- forward(): positioning per style, then the copy to output -----

  /** The stream after positioning, what positioning wrote, and whether
      forward() goes on to copy (false where it returns early). */
  datatype Positioned = Positioned(s: Stream, out: seq<Event>, ok: bool)

  /** The stream describes its own regular file: the cached size is the
      number of bytes it holds (forward() is called with the stat of fp). */
  predicate Describes(sb: Stat, s: Stream)
  {
    sb.isReg ==> sb.size == |s.data|
  }

  /** The bookkeeping of a stream after a read loop reached EOF: on a read
      error ierr() is called and forward() returns. */
  function AfterEof(s: Stream, name: string): Positioned
  {
    if s.error then Positioned(s, [ReadError(name)], false) else Positioned(s, [], true)
  }

  /** fseeko to an absolute position; on failure ierr() and return. */
  function SeekTo(s: Stream, name: string, p: nat): Positioned
  {
    if s.seekOk then Positioned(s.(pos := p), [], true) else Positioned(s, [ReadError(name)], false)
  }

  /** bytes() or lines() on a stream that cannot seek: it reads its input to
      the end and displays the tail itself; only its status is known. */
  function Delegate(s: Stream, style: Style, off: nat, delegateOk: bool): Positioned
    requires s.Valid()
  {
    Positioned(s.(pos := |s.data|), [Delegated(style, off)], delegateOk)
  }

  /** Where each style leaves the cursor (forward.c, the switch on style). */
  function PositionSpec(s0: Stream, name: string, style: Style, off: nat, sb: Stat,
                        delegateOk: bool): (p: Positioned)
    requires s0.Valid() && Describes(sb, s0)
    ensures p.s.Valid() && p.s.data == s0.data
    ensures p.s.failing == s0.failing && p.s.seekOk == s0.seekOk && p.s.isStdin == s0.isStdin
  {
    var regular := sb.isReg && sb.size > 0;
    match style
    case FBytes =>
      if off == 0 then Positioned(s0, [], true)
      else if regular then SeekTo(s0, name, if sb.size < off then sb.size else off)
      else if off <= |s0.Rest()| then Positioned(s0.(pos := s0.pos + off), [], true)
      else AfterEof(Drained(s0), name)
    case FLines =>
      if off == 0 then Positioned(s0, [], true)
      else if off <= CountNL(s0.Rest()) then Positioned(s0.(pos := SkipLines(s0.data, s0.pos, off)), [], true)
      else AfterEof(Drained(s0), name)
    case RBytes =>
      if regular then
        (if off <= sb.size then SeekTo(s0, name, sb.size - off) else Positioned(s0, [], true))
      else if off == 0 then AfterEof(Drained(s0), name)
      else Delegate(s0, RBytes, off, delegateOk)
    case RLines =>
      if regular then
        (if off == 0 then SeekTo(s0, name, sb.size)
         else Positioned(if s0.seekOk then s0.(pos := sb.size) else s0,
                         Bytes(s0.data[LastLinesStart(s0.data, off)..]) +
                         (if s0.seekOk then [] else [ReadError(name)]), true))
      else if off == 0 then AfterEof(Drained(s0), name)
      else Delegate(s0, RLines, off, delegateOk)
  }

  /** All of forward(): positioning, then every remaining byte to output and
      a final check of the stream's error flag. */
  function ForwardSpec(s0: Stream, name: string, style: Style, off: nat, sb: Stat,
                       delegateOk: bool): (r: (Stream, seq<Event>))
    requires s0.Valid() && Describes(sb, s0)
    ensures r.0.Valid() && r.0.data == s0.data && r.0.isStdin == s0.isStdin
  {
    var p := PositionSpec(s0, name, style, off, sb, delegateOk);
    if !p.ok then (p.s, p.out)
    else
      var t := Drained(p.s);
      (t, p.out + Bytes(p.s.Rest()) + (if t.error then [ReadError(name)] else []))
  }

  /** FBYTES on a stream that cannot seek: read and discard up to off bytes. */
  method SkipBytes(s0: Stream, name: string, off: nat) returns (p: Positioned)
    requires s0.Valid()
    ensures p == if off <= |s0.Rest()| then Positioned(s0.(pos := s0.pos + off), [], true)
                 else AfterEof(Drained(s0), name)
  {
    var s := s0;
    var left := off;
    while left > 0
      invariant s.Valid() && s == s0.(pos := s.pos)
      invariant s.pos - s0.pos + left == off
      decreases left
    {
      left := left - 1;
      var r := Getc(s);
      s := r.1;
      if r.0 == EOF {
        if s.error {
          return Positioned(s, [ReadError(name)], false);
        }
        return Positioned(s, [], true);
      }
    }
    return Positioned(s, [], true);
  }

  /** The state of the FLINES loop: the stream has advanced from s0 to s,
      and `left` newlines of the `off` to skip are still ahead. */
  ghost predicate Skipping(s0: Stream, off: nat, s: Stream, left: nat)
  {
    && s0.Valid() && s.Valid() && s == s0.(pos := s.pos) && s0.pos <= s.pos
    && 1 <= left <= off
    && SkipLines(s0.data, s.pos, left) == SkipLines(s0.data, s0.pos, off)
    && CountNL(s0.data[s0.pos..s.pos]) + left == off
  }

  lemma SkippingStep(s0: Stream, off: nat, s: Stream, left: nat, c: byte)
    requires Skipping(s0, off, s, left) && s.pos < |s.data| && c == s.data[s.pos]
    requires !(c == NL && left == 1)
    ensures Skipping(s0, off, s.(pos := s.pos + 1), if c == NL then left - 1 else left)
  {
    CountNLStep(s0.data, s0.pos, s.pos);
  }

  /** The FLINES loop reads the off-th newline, at index p. */
  lemma SkippingFound(d: seq<byte>, p0: nat, p: nat, off: nat)
    requires p0 <= p < |d| && d[p] == NL
    requires CountNL(d[p0..p]) + 1 == off && SkipLines(d, p, 1) == SkipLines(d, p0, off)
    ensures off <= CountNL(d[p0..]) && SkipLines(d, p0, off) == p + 1
  {
    assert SkipLines(d, p, 1) == SkipLines(d, p + 1, 0);
    CountNLStep(d, p0, p);
    CountNLSplit(d, p0, p + 1, |d|);
    assert d[p0..|d|] == d[p0..];
  }

  /** The FLINES loop meets end of file with newlines still to skip. */
  lemma SkippingEof(s0: Stream, off: nat, s: Stream, left: nat)
    requires Skipping(s0, off, s, left) && s.pos == |s.data|
    ensures off > CountNL(s0.Rest())
    ensures s.(error := s.error || s.failing) == Drained(s0)
  {
    assert s0.data[s0.pos..s.pos] == s0.Rest();
  }

  /** FLINES: read up to and including the off-th newline. */
  method SkipNewlines(s0: Stream, name: string, off: nat) returns (p: Positioned)
    requires s0.Valid() && off > 0
    ensures p == if off <= CountNL(s0.Rest()) then Positioned(s0.(pos := SkipLines(s0.data, s0.pos, off)), [], true)
                 else AfterEof(Drained(s0), name)
  {
    var s := s0;
    var left := off;
    assert s0.data[s0.pos..s0.pos] == [];
    while true
      invariant Skipping(s0, off, s, left)
      decreases |s.data| - s.pos
    {
      var r := Getc(s);
      if r.0 == EOF {
        SkippingEof(s0, off, s, left);
        return AfterEof(r.1, name);
      }
      var c := r.0 as byte;
      if c == NL && left == 1 {
        SkippingFound(s0.data, s0.pos, s.pos, off);
        return Positioned(r.1, [], true);
      }
      SkippingStep(s0, off, s, left, c);
      s := r.1;
      if c == NL {
        left := left - 1;
      }
    }
  }

  /** RBYTES and RLINES with a zero count on a stream that cannot seek:
      read everything, display nothing. */
  method SkipAll(s0: Stream, name: string) returns (p: Positioned)
    requires s0.Valid()
    ensures p == AfterEof(Drained(s0), name)
  {
    var s, skipped := ReadAll(s0);
    if s.error {
      return Positioned(s, [ReadError(name)], false);
    }
    return Positioned(s, [], true);
  }

  /** The positioning switch of forward(). */
  method Position(s0: Stream, name: string, style: Style, off: nat, sb: Stat,
                  delegateOk: bool) returns (p: Positioned)
    requires s0.Valid() && Describes(sb, s0)
    ensures p == PositionSpec(s0, name, style, off, sb, delegateOk)
  {
    var regular := sb.isReg && sb.size > 0;
    match style
    case FBytes =>
      if off == 0 {
        p := Positioned(s0, [], true);
      } else if regular {
        p := SeekTo(s0, name, if sb.size < off then sb.size else off);
      } else {
        p := SkipBytes(s0, name, off);
      }
    case FLines =>
      if off == 0 {
        p := Positioned(s0, [], true);
      } else {
        p := SkipNewlines(s0, name, off);
      }
    case RBytes =>
      if regular {
        p := if sb.size >= off then SeekTo(s0, name, sb.size - off) else Positioned(s0, [], true);
      } else if off == 0 {
        p := SkipAll(s0, name);
      } else {
        p := Delegate(s0, RBytes, off, delegateOk);
      }
    case RLines =>
      if regular {
        if off == 0 {
          p := SeekTo(s0, name, sb.size);
        } else {
          var s, out := RLinesScan(s0, name, off, sb.size);
          p := Positioned(s, out, true);
        }
      } else if off == 0 {
        p := SkipAll(s0, name);
      } else {
        p := Delegate(s0, RLines, off, delegateOk);
      }
  }

  /** forward(): position the stream, then copy the rest of it to output. */
  method Forward(s0: Stream, name: string, style: Style, off: nat, sb: Stat,
                 delegateOk: bool) returns (s: Stream, out: seq<Event>)
    requires s0.Valid() && Describes(sb, s0)
    ensures (s, out) == ForwardSpec(s0, name, style, off, sb, delegateOk)
  {
    var p := Position(s0, name, style, off, sb, delegateOk);
    s, out := p.s, p.out;
    if !p.ok {
      return;
    }
    var copied;
    s, copied := ReadAll(s);
    out := out + Bytes(copied);
    if s.error {
      out := out + [ReadError(name)];
    }
    assert s == Drained(p.s);
    assert copied == p.s.Rest();
    assert out == p.out + Bytes(p.s.Rest()) + (if Drained(p.s).error then [ReadError(name)] else []);
  }

  // ----- what positioning promises, style by style -----

  /** FBYTES with a zero offset leaves the cursor where it is. */
  lemma FBytesZeroKeepsCursor(s0: Stream, name: string, sb: Stat, dOk: bool)
    requires s0.Valid() && Describes(sb, s0)
    ensures PositionSpec(s0, name, FBytes, 0, sb, dOk) == Positioned(s0, [], true)
  {
  }

  /** FBYTES on a non-empty regular file seeks to min(off, size). */
  lemma FBytesRegularClamps(s0: Stream, name: string, off: nat, sb: Stat, dOk: bool)
    requires s0.Valid() && Describes(sb, s0) && s0.seekOk
    requires off > 0 && sb.isReg && sb.size > 0
    ensures var p := PositionSpec(s0, name, FBytes, off, sb, dOk);
      p.ok && p.out == [] && p.s.pos == (if off < sb.size then off else sb.size)
  {
  }

  /** FBYTES on anything else discards exactly min(off, remaining) bytes,
      and fails only when it ran into a read error at the end. */
  lemma FBytesStreamDiscards(s0: Stream, name: string, off: nat, sb: Stat, dOk: bool)
    requires s0.Valid() && Describes(sb, s0)
    requires off > 0 && !(sb.isReg && sb.size > 0)
    ensures var p := PositionSpec(s0, name, FBytes, off, sb, dOk);
      && p.s.pos == s0.pos + (if off < |s0.Rest()| then off else |s0.Rest()|)
      && (p.ok <==> off <= |s0.Rest()| || !(s0.error || s0.failing))
      && (p.ok ==> p.out == [])
  {
    if off > |s0.Rest()| {
      assert Drained(s0).pos == |s0.data|;
      assert Drained(s0).error == (s0.error || s0.failing);
    }
  }

  /** FLINES leaves the cursor just past the off-th newline read, or at the
      end when there are fewer newlines. */
  lemma FLinesPastNewline(s0: Stream, name: string, off: nat, sb: Stat, dOk: bool)
    requires s0.Valid() && Describes(sb, s0) && off > 0
    ensures var p := PositionSpec(s0, name, FLines, off, sb, dOk);
      && s0.pos <= p.s.pos
      && (off <= CountNL(s0.Rest()) ==>
            p.ok && CountNL(s0.data[s0.pos..p.s.pos]) == off && s0.data[p.s.pos - 1] == NL)
      && (CountNL(s0.Rest()) < off ==> p.s.pos == |s0.data|)
  {
    SkipLinesSpec(s0.data, s0.pos, off);
  }

  /** RBYTES on a non-empty regular file: off bytes back from the end when
      they fit, otherwise the cursor stays put. */
  lemma RBytesFromEnd(s0: Stream, name: string, off: nat, sb: Stat, dOk: bool)
    requires s0.Valid() && Describes(sb, s0) && s0.seekOk
    requires sb.isReg && sb.size > 0
    ensures var p := PositionSpec(s0, name, RBytes, off, sb, dOk);
      && p.ok && p.out == []
      && p.s.pos == (if off <= sb.size then sb.size - off else s0.pos)
  {
  }

  /** An RBYTES count reaching the file size displays the whole file. */
  lemma RBytesWholeFile(s0: Stream, name: string, off: nat, sb: Stat, dOk: bool)
    requires s0.Valid() && Describes(sb, s0) && s0.seekOk && s0.pos == 0
    requires sb.isReg && sb.size > 0 && off >= sb.size
    ensures ForwardSpec(s0, name, RBytes, off, sb, dOk).1 ==
            Bytes(s0.data) + (if s0.error || s0.failing then [ReadError(name)] else [])
  {
    assert s0.data[0..] == s0.data;
  }

  /** RLINES with a zero count on a non-empty regular file puts the cursor
      at the end: no byte is displayed. */
  lemma RLinesZeroShowsNothing(s0: Stream, name: string, sb: Stat, dOk: bool)
    requires s0.Valid() && Describes(sb, s0) && s0.seekOk
    requires sb.isReg && sb.size > 0
    ensures var r := ForwardSpec(s0, name, RLines, 0, sb, dOk);
      && r.1 == (if s0.error || s0.failing then [ReadError(name)] else [])
      && r.0.pos == sb.size
  {
  }

  /** RLINES with a count n on a non-empty regular file displays exactly the
      bytes after the n-th newline counted back from the end (the last byte
      not counted), or the whole file when it has fewer newlines. */
  lemma RLinesShowsLastLines(s0: Stream, name: string, n: nat, sb: Stat, dOk: bool)
    requires s0.Valid() && Describes(sb, s0) && s0.seekOk && !s0.error && !s0.failing
    requires sb.isReg && sb.size > 0 && n >= 1
    ensures var k := LastLinesStart(s0.data, n);
      && ForwardSpec(s0, name, RLines, n, sb, dOk) == (s0.(pos := |s0.data|), Bytes(s0.data[k..]))
      && (n <= CountNL(s0.data[..|s0.data| - 1]) ==> 1 <= k && s0.data[k - 1] == NL && CountNL(s0.data[k - 1..|s0.data| - 1]) == n)
      && (CountNL(s0.data[..|s0.data| - 1]) < n ==> k == 0)
  {
    var k := LastLinesStart(s0.data, n);
    LastLinesStartSpec(s0.data, n);
    var p := PositionSpec(s0, name, RLines, n, sb, dOk);
    assert p.s == s0.(pos := sb.size);
    assert p.out == Bytes(s0.data[k..]) + [];
    assert p.s.Rest() == [];
    assert Drained(p.s) == s0.(pos := |s0.data|);
    assert ForwardSpec(s0, name, RLines, n, sb, dOk).1 == p.out + Bytes([]) + [];
    assert ForwardSpec(s0, name, RLines, n, sb, dOk).1 == Bytes(s0.data[k..]);
    assert ForwardSpec(s0, name, RLines, n, sb, dOk).0 == s0.(pos := |s0.data|);
  }

  /** The five-line file a\nb\nc\nd\ne\n with the last two lines asked for
      displays d\ne\n. */
  lemma FiveLinesLastTwo(name: string, dev: int, ino: int, dOk: bool)
    ensures var d: seq<byte> := [97, 10, 98, 10, 99, 10, 100, 10, 101, 10];
      ForwardSpec(Stream(d, 0, false, false, true, false), name, RLines, 2,
                  Stat(true, 10, dev, ino, 1), dOk).1 == Bytes([100, 10, 101, 10])
  {
    var d: seq<byte> := [97, 10, 98, 10, 99, 10, 100, 10, 101, 10];
    assert BackScan(d, 8, 2) == BackScan(d, 7, 2) == BackScan(d, 6, 1) == BackScan(d, 5, 1) == 6;
    assert d[6..] == [100, 10, 101, 10];
  }

  /** forward() never writes a file header: headers are the caller's. */
  lemma NoHeaderAppend(a: seq<Event>, b: seq<Event>)
    requires NoHeader(a) && NoHeader(b)
    ensures NoHeader(a + b)
  {
    forall k | 0 <= k < |a + b|
      ensures !(a + b)[k].Header?
    {
      if k >= |a| {
        assert (a + b)[k] == b[k - |a|];
      }
    }
  }

  lemma NoHeaderBytes(s: seq<byte>)
    ensures NoHeader(Bytes(s))
  {
  }

  /** Positioning never writes a file header. */
  lemma PositionWritesNoHeader(s0: Stream, name: string, style: Style, off: nat, sb: Stat, dOk: bool)
    requires s0.Valid() && Describes(sb, s0)
    ensures NoHeader(PositionSpec(s0, name, style, off, sb, dOk).out)
  {
    if style == RLines && sb.isReg && sb.size > 0 && off != 0 {
      NoHeaderBytes(s0.data[LastLinesStart(s0.data, off)..]);
      NoHeaderAppend(Bytes(s0.data[LastLinesStart(s0.data, off)..]),
                     if s0.seekOk then [] else [ReadError(name)]);
    }
  }

  /** forward() writes no file header: the caller writes it. */
  lemma ForwardWritesNoHeader(s0: Stream, name: string, style: Style, off: nat, sb: Stat, dOk: bool)
    requires s0.Valid() && Describes(sb, s0)
    ensures NoHeader(ForwardSpec(s0, name, style, off, sb, dOk).1)
  {
    var p := PositionSpec(s0, name, style, off, sb, dOk);
    PositionWritesNoHeader(s0, name, style, off, sb, dOk);
    if p.ok {
      var t := Drained(p.s);
      var tail: seq<Event> := if t.error then [ReadError(name)] else [];
      NoHeaderBytes(p.s.Rest());
      NoHeaderAppend(p.out, Bytes(p.s.Rest()));
      NoHeaderAppend(p.out + Bytes(p.s.Rest()), tail);
    }
  }
}
