/** Model of the display and follow half of tail(1): show() and follow().
    The array of tracked files and the module-global `last` belong to a
    Follower object; each method is proved against a pure transition
    function on the abstract state, and the lemmas state what those
    transitions promise. */
module TailFollow {
  import opened Wrappers
  import opened TailForward

  /** One tracked file: its name, its stream when open (OPEN) or None
      (CLOSED), and the stat taken at the last successful open. */
  datatype FileInfo = FileInfo(name: string, fp: Option<Stream>, st: Stat)

  predicate FileOk(f: FileInfo)
  {
    f.fp.Some? ==> f.fp.value.Valid()
  }

  /** What opening a file's path again and stat'ing the new handle give in
      this iteration: a failure (ENOENT or some other errno), or the new
      handle with its stat. */
  datatype Open = Gone(enoent: bool) | Got(h: Stream, st: Stat)

  predicate OpenOk(w: Open)
  {
    w.Got? ==> w.h.Valid()
  }

  /** The abstract state: the files, the index of the file that produced
      output last (-1 for none), and everything written so far. */
  datatype Sys = Sys(files: seq<FileInfo>, last: int, out: seq<Event>)

  predicate SysOk(sys: Sys)
  {
    && -1 <= sys.last < |sys.files|
    && forall i :: 0 <= i < |sys.files| ==> FileOk(sys.files[i])
  }

  /** The header rule of show(): -v, or more than one file without -q. */
  function HeaderOn(vflag: bool, qflag: bool, nfiles: nat): bool
  {
    vflag || (!qflag && nfiles > 1)
  }

  /** The bytes in a sequence of events, in order. */
  function Payload(es: seq<Event>): (r: seq<byte>)
    ensures |r| <= |es|
  {
    if es == [] then []
    else Payload(es[..|es| - 1]) + (if es[|es| - 1].Byte? then [es[|es| - 1].b] else [])
  }

  lemma {:induction false} PayloadAppend(a: seq<Event>, b: seq<Event>)
    ensures Payload(a + b) == Payload(a) + Payload(b)
    decreases |b|
  {
    if b == [] {
      assert a + b == a;
    } else {
      assert (a + b)[..|a + b| - 1] == a + b[..|b| - 1];
      PayloadAppend(a, b[..|b| - 1]);
    }
  }

  lemma {:induction false} PayloadBytes(s: seq<byte>)
    ensures Payload(Bytes(s)) == s
    decreases |s|
  {
    if s != [] {
      var s' := s[..|s| - 1];
      assert s == s' + [s[|s| - 1]];
      BytesAppend(s', [s[|s| - 1]]);
      assert Bytes(s) == Bytes(s') + [Byte(s[|s| - 1])];
      PayloadAppend(Bytes(s'), [Byte(s[|s| - 1])]);
      assert [Byte(s[|s| - 1])][..0] == [];
      PayloadBytes(s');
    }
  }

  /** The number of headers in a sequence of events. */
  function Headers(es: seq<Event>): nat
  {
    if es == [] then 0 else Headers(es[..|es| - 1]) + (if es[|es| - 1].Header? then 1 else 0)
  }

  lemma {:induction false} HeadersAppend(a: seq<Event>, b: seq<Event>)
    ensures Headers(a + b) == Headers(a) + Headers(b)
    decreases |b|
  {
    if b == [] {
      assert a + b == a;
    } else {
      assert (a + b)[..|a + b| - 1] == a + b[..|b| - 1];
      HeadersAppend(a, b[..|b| - 1]);
    }
  }

  lemma {:induction false} HeadersBytes(s: seq<byte>)
    ensures Headers(Bytes(s)) == 0
    decreases |s|
  {
    if s != [] {
      var s' := s[..|s| - 1];
      assert s == s' + [s[|s| - 1]];
      BytesAppend(s', [s[|s| - 1]]);
      assert Bytes(s) == Bytes(s') + [Byte(s[|s| - 1])];
      HeadersAppend(Bytes(s'), [Byte(s[|s| - 1])]);
      assert [Byte(s[|s| - 1])][..0] == [];
      HeadersBytes(s');
    }
  }

  /** The file named by the last header among the events, if any. */
  function LastHeader(es: seq<Event>): Option<string>
  {
    if es == [] then None
    else if es[|es| - 1].Header? then Some(es[|es| - 1].name)
    else LastHeader(es[..|es| - 1])
  }

  lemma {:induction false} LastHeaderAppend(a: seq<Event>, b: seq<Event>)
    ensures LastHeader(a + b) == if LastHeader(b).Some? then LastHeader(b) else LastHeader(a)
    decreases |b|
  {
    if b == [] {
      assert a + b == a;
    } else {
      assert (a + b)[..|a + b| - 1] == a + b[..|b| - 1];
      LastHeaderAppend(a, b[..|b| - 1]);
    }
  }

  lemma {:induction false} LastHeaderNone(es: seq<Event>)
    requires NoHeader(es)
    ensures LastHeader(es) == None
    decreases |es|
  {
    if es != [] {
      LastHeaderNone(es[..|es| - 1]);
    }
  }

  lemma AppendAssoc<T>(a: seq<T>, b: seq<T>, c: seq<T>, d: seq<T>)
    ensures a + b + c + d == a + (b + c + d)
  {
  }

  lemma AppendAssoc3<T>(a: seq<T>, b: seq<T>, c: seq<T>)
    ensures a + b + c == a + (b + c)
  {
  }

  lemma AppendEmpty<T>(a: seq<T>)
    ensures a + [] == a
  {
  }

  lemma SliceSnoc<T>(d: seq<T>, i: nat, j: nat)
    requires i <= j < |d|
    ensures d[i..j + 1] == d[i..j] + [d[j]]
  {
  }

  lemma BytesSnoc(pre: seq<Event>, s: seq<byte>, c: byte)
    ensures pre + Bytes(s) + [Byte(c)] == pre + Bytes(s + [c])
  {
    BytesAppend(s, [c]);
    assert Bytes([c]) == [Byte(c)];
  }

  // ----- show() -----

  /** The header line show() writes before a file's first byte when the
      output switches files and headers are on. */
  function Heading(on: bool, name: string): (r: seq<Event>)
    ensures |r| == (if on then 1 else 0) && (on ==> r[0] == Header(name))
  {
    if on then [Header(name)] else []
  }

  /** The report ierr() writes when a stream ends in a read error. */
  function Reported(err: bool, name: string): (r: seq<Event>)
    ensures |r| == (if err then 1 else 0) && (err ==> r[0] == ReadError(name))
  {
    if err then [ReadError(name)] else []
  }

  lemma HeadingEvents(on: bool, name: string)
    ensures Payload(Heading(on, name)) == [] && Headers(Heading(on, name)) == (if on then 1 else 0)
  {
    if on {
      assert [Header(name)][..0] == [];
    }
  }

  lemma ReportedEvents(err: bool, name: string)
    ensures Payload(Reported(err, name)) == [] && Headers(Reported(err, name)) == 0
  {
    if err {
      assert [ReadError(name)][..0] == [];
    }
  }

  /** The bytes and the headers of bytes framed by two byte-free parts. */
  lemma FramedBytes(h: seq<Event>, b: seq<byte>, e: seq<Event>)
    requires Payload(h) == [] && Payload(e) == []
    ensures Payload(h + Bytes(b) + e) == b
    ensures Headers(h + Bytes(b) + e) == Headers(h) + Headers(e)
  {
    PayloadAppend(h + Bytes(b), e);
    PayloadAppend(h, Bytes(b));
    PayloadBytes(b);
    HeadersAppend(h + Bytes(b), e);
    HeadersAppend(h, Bytes(b));
    HeadersBytes(b);
  }

  /** What show() writes for file i: a header before the first byte when the
      source changes and headers are on, the bytes, and a report when the
      stream ended in a read error. */
  function ShowEvents(sys: Sys, i: nat, hdr: bool): seq<Event>
    requires SysOk(sys) && i < |sys.files| && sys.files[i].fp.Some?
  {
    var f := sys.files[i];
    var s := f.fp.value;
    Heading(s.Rest() != [] && sys.last != i && hdr, f.name) + Bytes(s.Rest()) + Reported(Drained(s).error, f.name)
  }

  /** show(): drain file i; the result says whether the handle survived. */
  function ShowSpec(sys: Sys, i: nat, hdr: bool): (r: (Sys, bool))
    requires SysOk(sys) && i < |sys.files| && sys.files[i].fp.Some?
    ensures SysOk(r.0) && |r.0.files| == |sys.files|
    ensures forall j :: 0 <= j < |sys.files| && j != i ==> r.0.files[j] == sys.files[j]
    ensures r.0.files[i].name == sys.files[i].name && r.0.files[i].st == sys.files[i].st
    ensures r.1 <==> r.0.files[i].fp.Some?
    ensures r.0.files[i].fp.Some? ==> r.0.files[i].fp.value.Rest() == [] && !r.0.files[i].fp.value.error
    ensures r.0.out == sys.out + ShowEvents(sys, i, hdr)
  {
    var f := sys.files[i];
    var s := f.fp.value;
    var last := if s.Rest() != [] then i else sys.last;
    var t := Drained(s);
    var out := sys.out + ShowEvents(sys, i, hdr);
    if t.error then (Sys(sys.files[i := f.(fp := None)], last, out), false)
    else (Sys(sys.files[i := f.(fp := Some(t))], last, out), true)
  }

  /** The header rule: at most one header, and it comes first; there is one
      exactly when a byte is shown, the file is not the last one shown and
      headers are on. */
  lemma ShowHeaderRule(sys: Sys, i: nat, hdr: bool)
    requires SysOk(sys) && i < |sys.files| && sys.files[i].fp.Some?
    ensures var es := ShowEvents(sys, i, hdr);
      var s := sys.files[i].fp.value;
      && Headers(es) == (if s.Rest() != [] && sys.last != i && hdr then 1 else 0)
      && (Headers(es) == 1 ==> es[0] == Header(sys.files[i].name))
  {
    var f := sys.files[i];
    var s := f.fp.value;
    var on := s.Rest() != [] && sys.last != i && hdr;
    HeadingEvents(on, f.name);
    ReportedEvents(Drained(s).error, f.name);
    FramedBytes(Heading(on, f.name), s.Rest(), Reported(Drained(s).error, f.name));
  }

  /** `last` becomes i exactly when show() displays a byte. */
  lemma ShowTracksLast(sys: Sys, i: nat, hdr: bool)
    requires SysOk(sys) && i < |sys.files| && sys.files[i].fp.Some?
    ensures ShowSpec(sys, i, hdr).0.last ==
            (if sys.files[i].fp.value.Rest() != [] then i else sys.last)
  {
  }

  /** The bytes show() writes are exactly what the stream had left. */
  lemma ShowPayload(sys: Sys, i: nat, hdr: bool)
    requires SysOk(sys) && i < |sys.files| && sys.files[i].fp.Some?
    ensures Payload(ShowEvents(sys, i, hdr)) == sys.files[i].fp.value.Rest()
  {
    var f := sys.files[i];
    var s := f.fp.value;
    var on := s.Rest() != [] && sys.last != i && hdr;
    HeadingEvents(on, f.name);
    ReportedEvents(Drained(s).error, f.name);
    FramedBytes(Heading(on, f.name), s.Rest(), Reported(Drained(s).error, f.name));
  }

  /** On a read error show() closes the handle and returns failure; otherwise
      it keeps the handle, now at its end with the error flag clear. */
  lemma ShowErrorCloses(sys: Sys, i: nat, hdr: bool)
    requires SysOk(sys) && i < |sys.files| && sys.files[i].fp.Some?
    ensures var s := sys.files[i].fp.value;
      var r := ShowSpec(sys, i, hdr);
      && (r.1 <==> !s.error && !s.failing)
      && (!r.1 ==> r.0.files[i].fp == None && r.0.out[|r.0.out| - 1] == ReadError(sys.files[i].name))
      && (r.1 ==> r.0.files[i].fp == Some(s.(pos := |s.data|)))
  {
  }

  /** What `last` means once headers are on: the file at index `last`
      wrote the last header, or no header was written when it is -1. */
  predicate Tracks(sys: Sys)
    requires SysOk(sys)
  {
    if sys.last < 0 then LastHeader(sys.out) == None
    else LastHeader(sys.out) == Some(sys.files[sys.last].name)
  }

  lemma ShowEventsLastHeader(sys: Sys, i: nat, hdr: bool)
    requires SysOk(sys) && i < |sys.files| && sys.files[i].fp.Some?
    ensures var s := sys.files[i].fp.value;
      LastHeader(ShowEvents(sys, i, hdr)) ==
      if s.Rest() != [] && sys.last != i && hdr then Some(sys.files[i].name) else None
  {
    var f := sys.files[i];
    var s := f.fp.value;
    var h := Heading(s.Rest() != [] && sys.last != i && hdr, f.name);
    var e := Reported(Drained(s).error, f.name);
    LastHeaderAppend(h + Bytes(s.Rest()), e);
    LastHeaderAppend(h, Bytes(s.Rest()));
    LastHeaderNone(Bytes(s.Rest()));
    LastHeaderNone(e);
    if s.Rest() != [] && sys.last != i && hdr {
      assert [Header(f.name)][..0] == [];
    }
  }

  /** With headers on, show() keeps `last` naming the writer of the last
      header. */
  lemma ShowKeepsTrack(sys: Sys, i: nat, hdr: bool)
    requires SysOk(sys) && i < |sys.files| && sys.files[i].fp.Some?
    requires hdr && Tracks(sys)
    ensures Tracks(ShowSpec(sys, i, hdr).0)
  {
    ShowEventsLastHeader(sys, i, hdr);
    LastHeaderAppend(sys.out, ShowEvents(sys, i, hdr));
  }

  /** The state of show()'s copy loop for file i part-way through: the
      stream has advanced from s0 to s, `last` names file i once a byte was
      copied, and the output holds the header, if any, and the bytes read. */
  ghost predicate Copying(i: nat, name: string, s0: Stream, last0: int, out0: seq<Event>, hdr: bool,
                          s: Stream, last: int, out: seq<Event>)
  {
    && s0.Valid() && s.Valid() && s == s0.(pos := s.pos) && s0.pos <= s.pos
    && last == (if s.pos > s0.pos then i else last0)
    && out == out0 + Heading(s.pos > s0.pos && last0 != i && hdr, name) + Bytes(s0.data[s0.pos..s.pos])
  }

  /** Before the first byte nothing was written. */
  lemma CopyingFirst(i: nat, name: string, s0: Stream, last0: int, out0: seq<Event>, hdr: bool,
                     s: Stream, last: int, out: seq<Event>)
    requires Copying(i, name, s0, last0, out0, hdr, s, last, out) && s.pos == s0.pos
    ensures last == last0 && out == out0
  {
    assert s0.data[s0.pos..s.pos] == [];
    assert Heading(false, name) + Bytes([]) == [];
  }

  lemma CopyingStep(i: nat, name: string, s0: Stream, last0: int, out0: seq<Event>, hdr: bool,
                    s: Stream, last: int, out: seq<Event>, c: byte)
    requires Copying(i, name, s0, last0, out0, hdr, s, last, out)
    requires s.pos < |s.data| && c == s.data[s.pos]
    ensures Copying(i, name, s0, last0, out0, hdr, s.(pos := s.pos + 1), i,
                    out + Heading(last != i && hdr, name) + [Byte(c)])
  {
    var d := s0.data;
    var h := Heading(last0 != i && hdr, name);
    var got := d[s0.pos..s.pos];
    SliceSnoc(d, s0.pos, s.pos);
    BytesSnoc(out0 + h, got, c);
    if s.pos == s0.pos {
      CopyingFirst(i, name, s0, last0, out0, hdr, s, last, out);
      assert got == [];
      AppendEmpty(out0 + h);
    } else {
      AppendEmpty(out);
    }
  }

  lemma CopyingEnd(i: nat, name: string, s0: Stream, last0: int, out0: seq<Event>, hdr: bool,
                   s: Stream, last: int, out: seq<Event>)
    requires Copying(i, name, s0, last0, out0, hdr, s, last, out) && s.pos == |s.data|
    ensures s.(error := s.error || s.failing) == Drained(s0)
    ensures last == (if s0.Rest() != [] then i else last0)
    ensures out == out0 + Heading(s0.Rest() != [] && last0 != i && hdr, name) + Bytes(s0.Rest())
  {
    assert s0.data[s0.pos..s.pos] == s0.Rest();
  }

  /** One pass of the body of show()'s copy loop: the header when the
      source of output changes and headers are on, then the byte. */
  method Put(i: nat, name: string, c: byte, hdr: bool, last0: int, out0: seq<Event>)
    returns (last: int, out: seq<Event>)
    ensures last == i
    ensures out == out0 + Heading(last0 != i && hdr, name) + [Byte(c)]
  {
    last, out := last0, out0;
    if last != i {
      if hdr {
        out := out + [Header(name)];
      }
      last := i;
    }
    out := out + [Byte(c)];
  }

  /** The getc/putchar loop of show() for file i: copy the stream's
      remaining bytes after `out`, writing the header before the first one
      when the source of output changes and headers are on; `last` says
      which file wrote last. */
  method CopyRest(i: nat, name: string, s0: Stream, last0: int, out0: seq<Event>, hdr: bool)
    returns (s: Stream, last: int, out: seq<Event>)
    requires s0.Valid()
    ensures s == Drained(s0)
    ensures last == (if s0.Rest() != [] then i else last0)
    ensures out == out0 + Heading(s0.Rest() != [] && last0 != i && hdr, name) + Bytes(s0.Rest())
  {
    s, last, out := s0, last0, out0;
    assert s0.data[s0.pos..s0.pos] == [];
    while true
      invariant Copying(i, name, s0, last0, out0, hdr, s, last, out)
      decreases |s.data| - s.pos
    {
      var r := Getc(s);
      if r.0 == EOF {
        CopyingEnd(i, name, s0, last0, out0, hdr, s, last, out);
        s := r.1;
        break;
      }
      var c := r.0 as byte;
      CopyingStep(i, name, s0, last0, out0, hdr, s, last, out, c);
      last, out := Put(i, name, c, hdr, last, out);
      s := r.1;
    }
  }

  /** The output of show() assembled the way the imperative show() writes
      it: the copy loop's output, then the report when the stream failed. */
  lemma ShowOutcome(sys: Sys, i: nat, hdr: bool, copied: seq<Event>, out: seq<Event>)
    requires SysOk(sys) && i < |sys.files| && sys.files[i].fp.Some?
    requires var f := sys.files[i];
      var s := f.fp.value;
      && copied == sys.out + Heading(s.Rest() != [] && sys.last != i && hdr, f.name) + Bytes(s.Rest())
      && out == (if Drained(s).error then copied + [ReadError(f.name)] else copied)
    ensures out == sys.out + ShowEvents(sys, i, hdr)
  {
    var f := sys.files[i];
    var s := f.fp.value;
    var h := Heading(s.Rest() != [] && sys.last != i && hdr, f.name);
    var e := Reported(Drained(s).error, f.name);
    AppendAssoc(sys.out, h, Bytes(s.Rest()), e);
    if !Drained(s).error {
      assert copied + e == copied;
    }
  }

  // ----- the positioning pass of follow() -----

  /** Every file is well formed and its cached stat describes its stream, as
      the stat taken by fstat on that stream does. */
  predicate Described(files: seq<FileInfo>)
  {
    forall k :: 0 <= k < |files| ==> FileOk(files[k]) && (files[k].fp.Some? ==> Describes(files[k].st, files[k].fp.value))
  }

  /** The names of the files, in order. */
  function Names(files: seq<FileInfo>): seq<string>
  {
    seq(|files|, k requires 0 <= k < |files| => files[k].name)
  }

  /** Replacing one file by one of the same name renames nothing. */
  lemma NamesUpdate(files: seq<FileInfo>, i: nat, x: FileInfo)
    requires i < |files| && x.name == files[i].name
    ensures Names(files[i := x]) == Names(files)
  {
  }

  /** Equal names, file by file. */
  lemma NamesAgree(a: seq<FileInfo>, b: seq<FileInfo>)
    requires Names(a) == Names(b)
    ensures |a| == |b| && forall k :: 0 <= k < |a| ==> a[k].name == b[k].name
  {
    assert |Names(a)| == |a| && |Names(b)| == |b|;
    forall k | 0 <= k < |a|
      ensures a[k].name == b[k].name
    {
      assert Names(a)[k] == a[k].name && Names(b)[k] == b[k].name;
    }
  }

  /** The positioning loop of follow() over files 0 .. j-1: every OPEN file
      gets its header when headers are on, then forward() from the offset.
      `dOk` holds, per file, the status bytes() or lines() would report. */
  function StartUpTo(sys: Sys, j: nat, style: Style, off: nat, dOk: seq<bool>, hdr: bool): (r: Sys)
    requires SysOk(sys) && Described(sys.files) && j <= |sys.files| && |dOk| == |sys.files|
    ensures SysOk(r) && |r.files| == |sys.files| && r.last == sys.last
    ensures forall k :: j <= k < |sys.files| ==> r.files[k] == sys.files[k]
    ensures Names(r.files) == Names(sys.files)
    decreases j
  {
    if j == 0 then sys
    else
      var prev := StartUpTo(sys, j - 1, style, off, dOk, hdr);
      var f := prev.files[j - 1];
      if f.fp.None? then prev
      else
        var r := ForwardSpec(f.fp.value, f.name, style, off, f.st, dOk[j - 1]);
        NamesUpdate(prev.files, j - 1, f.(fp := Some(r.0)));
        Sys(prev.files[j - 1 := f.(fp := Some(r.0))], prev.last, prev.out + Heading(hdr, f.name) + r.1)
  }

  /** The index of the last OPEN file among 0 .. j-1, or -1. */
  function LastOpen(files: seq<FileInfo>, j: nat): (a: int)
    requires j <= |files|
    ensures -1 <= a < j
    ensures a >= 0 ==> files[a].fp.Some?
    ensures forall k :: a < k < j ==> files[k].fp.None?
    decreases j
  {
    if j == 0 then -1 else if files[j - 1].fp.Some? then j - 1 else LastOpen(files, j - 1)
  }

  /** follow() up to its loop: the positioning pass, then the early return
      when nothing is open and -F is off (false), else `last` is set and the
      loop begins (true). `last` becomes the last file positioned, whose
      header was the last written. */
  function StartSpec(sys: Sys, style: Style, off: nat, dOk: seq<bool>, fflag: bool, hdr: bool): (r: (Sys, bool))
    requires SysOk(sys) && Described(sys.files) && |dOk| == |sys.files|
    ensures SysOk(r.0)
  {
    var p := StartUpTo(sys, |sys.files|, style, off, dOk, hdr);
    var a := LastOpen(sys.files, |sys.files|);
    if !fflag && a < 0 then (p, false) else (p.(last := a), true)
  }

  /** The same, with `last` set as forward.c:279 sets it: to the final
      element of the array, whether or not that file was positioned. */
  function StartAsWritten(sys: Sys, style: Style, off: nat, dOk: seq<bool>, fflag: bool, hdr: bool): (r: (Sys, bool))
    requires SysOk(sys) && Described(sys.files) && |dOk| == |sys.files|
    ensures SysOk(r.0)
  {
    var p := StartUpTo(sys, |sys.files|, style, off, dOk, hdr);
    var a := LastOpen(sys.files, |sys.files|);
    if !fflag && a < 0 then (p, false) else (p.(last := |sys.files| - 1), true)
  }

  /** With headers on, the header written last by the positioning pass is
      that of the last OPEN file. */
  lemma {:induction false} StartHeaders(sys: Sys, j: nat, style: Style, off: nat, dOk: seq<bool>, hdr: bool)
    requires SysOk(sys) && Described(sys.files) && j <= |sys.files| && |dOk| == |sys.files| && hdr
    ensures var a := LastOpen(sys.files, j);
      LastHeader(StartUpTo(sys, j, style, off, dOk, hdr).out) ==
      if a >= 0 then Some(sys.files[a].name) else LastHeader(sys.out)
    decreases j
  {
    if j > 0 {
      StartHeaders(sys, j - 1, style, off, dOk, hdr);
      var prev := StartUpTo(sys, j - 1, style, off, dOk, hdr);
      var f := prev.files[j - 1];
      if f.fp.Some? {
        var r := ForwardSpec(f.fp.value, f.name, style, off, f.st, dOk[j - 1]);
        ForwardWritesNoHeader(f.fp.value, f.name, style, off, f.st, dOk[j - 1]);
        LastHeaderNone(r.1);
        LastHeaderAppend(prev.out + Heading(hdr, f.name), r.1);
        LastHeaderAppend(prev.out, Heading(hdr, f.name));
        assert [Header(f.name)][..0] == [];
      }
    }
  }

  /** follow() goes on to its loop exactly when -F is on or some file is
      OPEN; with headers on and no header written before, `last` then names
      the writer of the last header. */
  lemma StartTracks(sys: Sys, style: Style, off: nat, dOk: seq<bool>, fflag: bool, hdr: bool)
    requires SysOk(sys) && Described(sys.files) && |dOk| == |sys.files|
    ensures var r := StartSpec(sys, style, off, dOk, fflag, hdr);
      && (r.1 <==> fflag || exists k :: 0 <= k < |sys.files| && sys.files[k].fp.Some?)
      && (r.1 && hdr && LastHeader(sys.out) == None ==> Tracks(r.0))
  {
    var a := LastOpen(sys.files, |sys.files|);
    NamesAgree(StartUpTo(sys, |sys.files|, style, off, dOk, hdr).files, sys.files);
    if hdr {
      StartHeaders(sys, |sys.files|, style, off, dOk, hdr);
    }
    if a >= 0 {
      assert sys.files[a].fp.Some?;
    }
  }

  /** One step of the positioning pass: the header, when on, then
      forward() on the file's stream. */
  method PositionFile(f: FileInfo, out0: seq<Event>, hdr: bool, style: Style, off: nat, dOk: bool)
    returns (g: FileInfo, out: seq<Event>)
    requires FileOk(f) && f.fp.Some? && Describes(f.st, f.fp.value)
    ensures var r := ForwardSpec(f.fp.value, f.name, style, off, f.st, dOk);
      g == f.(fp := Some(r.0)) && out == out0 + Heading(hdr, f.name) + r.1
  {
    out := out0;
    if hdr {
      out := out + [Header(f.name)];
    }
    var s, evs := Forward(f.fp.value, f.name, style, off, f.st, dOk);
    out := out + evs;
    g := f.(fp := Some(s));
  }

  lemma StartUpToStep(sys: Sys, i: nat, style: Style, off: nat, dOk: seq<bool>, hdr: bool)
    requires SysOk(sys) && Described(sys.files) && i < |sys.files| && |dOk| == |sys.files|
    ensures var prev := StartUpTo(sys, i, style, off, dOk, hdr);
      var f := prev.files[i];
      && f == sys.files[i]
      && StartUpTo(sys, i + 1, style, off, dOk, hdr) ==
         if f.fp.None? then prev
         else
           var r := ForwardSpec(f.fp.value, f.name, style, off, f.st, dOk[i]);
           Sys(prev.files[i := f.(fp := Some(r.0))], prev.last, prev.out + Heading(hdr, f.name) + r.1)
  {
  }

  /** The two files of the counterexample: "a" open and empty, "b" not yet
      there. */
  function TwoFiles(): (sys: Sys)
    ensures SysOk(sys) && Described(sys.files) && |sys.files| == 2
  {
    Sys([FileInfo("a", Some(Stream([], 0, false, false, true, false)), Stat(true, 0, 0, 1, 1)),
         FileInfo("b", None, Stat(true, 0, 0, 2, 1))], -1, [])
  }

  /** `tail -F -c +0 a b` with "b" missing at start: as written, `last` names "b",
      so when "b" appears with one byte its bytes are shown under the header
      of "a"; with `last` set to the last positioned file, "b" gets its own
      header. */
  lemma StartLastCounterexample()
    ensures var r := StartAsWritten(TwoFiles(), FBytes, 0, [true, true], true, true).0;
      var w := Got(Stream([121], 0, false, false, true, false), Stat(true, 1, 0, 2, 1));
      && r.last == 1 && r.out == [Header("a")] && !Tracks(r)
      && ShowEvents(ProbeOne(r, 1, w, true), 1, true) == [Byte(121)]
    ensures var c := StartSpec(TwoFiles(), FBytes, 0, [true, true], true, true).0;
      var w := Got(Stream([121], 0, false, false, true, false), Stat(true, 1, 0, 2, 1));
      && c.last == 0 && c.out == [Header("a")] && Tracks(c)
      && ShowEvents(ProbeOne(c, 1, w, true), 1, true) == [Header("b"), Byte(121)]
  {
    var sys := TwoFiles();
    var sa := Stream([], 0, false, false, true, false);
    var p1 := StartUpTo(sys, 1, FBytes, 0, [true, true], true);
    assert ForwardSpec(sa, "a", FBytes, 0, Stat(true, 0, 0, 1, 1), true).1 == [];
    assert p1.out == [Header("a")];
    var p := StartUpTo(sys, 2, FBytes, 0, [true, true], true);
    assert p == p1;
    assert LastOpen(sys.files, 2) == 0;
    assert LastHeader([Header("a")]) == Some("a");
    var h := Stream([121], 0, false, false, true, false);
    assert h.Rest() == [121];
    assert Bytes(h.Rest()) == [Byte(121)];
  }

  // ----- one pass of follow() over the files -----

  /** The identity test of follow(): a different inode or device, or no
      links left. */
  predicate Replaced(cached: Stat, now: Stat)
  {
    now.ino != cached.ino || now.dev != cached.dev || now.nlink == 0
  }

  /** One file of the -F pass: reopen a CLOSED file; probe an OPEN one
      (never standard input) and drain-and-close it when its path vanished,
      drain-and-swap it when the path now names another file. */
  function ProbeOne(sys: Sys, i: nat, w: Open, hdr: bool): (r: Sys)
    requires SysOk(sys) && i < |sys.files| && OpenOk(w)
    ensures SysOk(r) && |r.files| == |sys.files|
    ensures forall j :: 0 <= j < |sys.files| && j != i ==> r.files[j] == sys.files[j]
    ensures r.files[i].name == sys.files[i].name
  {
    var f := sys.files[i];
    match f.fp
    case None =>
      (match w
       case Got(h, st) => sys.(files := sys.files[i := f.(fp := Some(h), st := st)])
       case Gone(_) => sys)
    case Some(s) =>
      if s.isStdin then sys
      else
        match w
        case Gone(enoent) =>
          var sys1 := if enoent then sys else sys.(out := sys.out + [ReadError(f.name)]);
          var sys2 := ShowSpec(sys1, i, hdr).0;
          sys2.(files := sys2.files[i := sys2.files[i].(fp := None)])
        case Got(h, st2) =>
          if Replaced(f.st, st2) then
            var sys2 := ShowSpec(sys, i, hdr).0;
            sys2.(files := sys2.files[i := sys2.files[i].(fp := Some(h), st := st2)])
          else sys
  }

  /** The -F pass over files 0 .. j-1, in array order. */
  function ProbeUpTo(sys: Sys, world: seq<Open>, j: nat, hdr: bool): (r: Sys)
    requires SysOk(sys) && j <= |sys.files| && |world| == |sys.files|
    requires forall k :: 0 <= k < |world| ==> OpenOk(world[k])
    ensures SysOk(r) && |r.files| == |sys.files|
    ensures forall k :: j <= k < |sys.files| ==> r.files[k] == sys.files[k]
    decreases j
  {
    if j == 0 then sys else ProbeOne(ProbeUpTo(sys, world, j - 1, hdr), j - 1, world[j - 1], hdr)
  }

  /** The display pass over files 0 .. j-1: show() every OPEN file. */
  function DrainUpTo(sys: Sys, j: nat, hdr: bool): (r: Sys)
    requires SysOk(sys) && j <= |sys.files|
    ensures SysOk(r) && |r.files| == |sys.files|
    ensures forall k :: j <= k < |sys.files| ==> r.files[k] == sys.files[k]
    decreases j
  {
    if j == 0 then sys
    else
      var prev := DrainUpTo(sys, j - 1, hdr);
      if prev.files[j - 1].fp.Some? then ShowSpec(prev, j - 1, hdr).0 else prev
  }

  lemma ProbeUpToStep(sys: Sys, world: seq<Open>, i: nat, hdr: bool)
    requires SysOk(sys) && i < |sys.files| && |world| == |sys.files|
    requires forall k :: 0 <= k < |world| ==> OpenOk(world[k])
    ensures ProbeUpTo(sys, world, i + 1, hdr) == ProbeOne(ProbeUpTo(sys, world, i, hdr), i, world[i], hdr)
  {
  }

  lemma DrainUpToStep(sys: Sys, i: nat, hdr: bool)
    requires SysOk(sys) && i < |sys.files|
    ensures var prev := DrainUpTo(sys, i, hdr);
      DrainUpTo(sys, i + 1, hdr) == if prev.files[i].fp.Some? then ShowSpec(prev, i, hdr).0 else prev
  {
  }

  /** One iteration of the for(;;) body of follow(). */
  function FollowIteration(sys: Sys, world: seq<Open>, fflag: bool, hdr: bool): Sys
    requires SysOk(sys) && |world| == |sys.files|
    requires forall k :: 0 <= k < |world| ==> OpenOk(world[k])
  {
    DrainUpTo(if fflag then ProbeUpTo(sys, world, |sys.files|, hdr) else sys, |sys.files|, hdr)
  }

  // ----- what one probe does -----

  /** A CLOSED file is adopted with the new handle and stat when opening and
      stat'ing it succeed, and left closed otherwise; nothing is reported. */
  lemma ProbeClosed(sys: Sys, i: nat, w: Open, hdr: bool)
    requires SysOk(sys) && i < |sys.files| && OpenOk(w) && sys.files[i].fp.None?
    ensures var r := ProbeOne(sys, i, w, hdr);
      && r.out == sys.out && r.last == sys.last
      && r.files[i] == (if w.Got? then sys.files[i].(fp := Some(w.h), st := w.st) else sys.files[i])
  {
  }

  /** Standard input is never probed. */
  lemma ProbeSkipsStdin(sys: Sys, i: nat, w: Open, hdr: bool)
    requires SysOk(sys) && i < |sys.files| && OpenOk(w)
    requires sys.files[i].fp.Some? && sys.files[i].fp.value.isStdin
    ensures ProbeOne(sys, i, w, hdr) == sys
  {
  }

  /** A vanished path: an error is reported first unless errno was ENOENT,
      then the old handle is drained and the file is CLOSED. */
  lemma ProbeVanished(sys: Sys, i: nat, enoent: bool, hdr: bool)
    requires SysOk(sys) && i < |sys.files|
    requires sys.files[i].fp.Some? && !sys.files[i].fp.value.isStdin
    ensures var r := ProbeOne(sys, i, Gone(enoent), hdr);
      var f := sys.files[i];
      && r.files[i] == f.(fp := None)
      && r.out == sys.out + (if enoent then [] else [ReadError(f.name)]) + ShowEvents(sys, i, hdr)
      && Payload(ShowEvents(sys, i, hdr)) == f.fp.value.Rest()
  {
    ShowPayload(sys, i, hdr);
  }

  /** A replaced file: the old handle is drained, then the file adopts the
      new handle and its stat and stays OPEN. */
  lemma ProbeReplaced(sys: Sys, i: nat, h: Stream, st2: Stat, hdr: bool)
    requires SysOk(sys) && i < |sys.files| && h.Valid()
    requires sys.files[i].fp.Some? && !sys.files[i].fp.value.isStdin
    requires Replaced(sys.files[i].st, st2)
    ensures var r := ProbeOne(sys, i, Got(h, st2), hdr);
      var f := sys.files[i];
      && r.files[i] == f.(fp := Some(h), st := st2)
      && r.out == sys.out + ShowEvents(sys, i, hdr)
      && Payload(ShowEvents(sys, i, hdr)) == f.fp.value.Rest()
  {
    ShowPayload(sys, i, hdr);
  }

  /** The same file is still at the path: the probe handle is closed and
      nothing changes. */
  lemma ProbeUnchanged(sys: Sys, i: nat, h: Stream, st2: Stat, hdr: bool)
    requires SysOk(sys) && i < |sys.files| && h.Valid()
    requires sys.files[i].fp.Some? && !Replaced(sys.files[i].st, st2)
    ensures ProbeOne(sys, i, Got(h, st2), hdr) == sys
  {
  }

  // ----- what the display pass does -----

  /** The remaining bytes of the OPEN files among 0 .. j-1, in array order. */
  function OpenRests(files: seq<FileInfo>, j: nat): seq<byte>
    requires j <= |files| && forall k :: 0 <= k < |files| ==> FileOk(files[k])
  {
    if j == 0 then []
    else OpenRests(files, j - 1) + (if files[j - 1].fp.Some? then files[j - 1].fp.value.Rest() else [])
  }

  /** The display pass only appends to what was written before. */
  lemma {:induction false} DrainExtends(sys: Sys, j: nat, hdr: bool)
    requires SysOk(sys) && j <= |sys.files|
    ensures |sys.out| <= |DrainUpTo(sys, j, hdr).out|
    ensures DrainUpTo(sys, j, hdr).out[..|sys.out|] == sys.out
    decreases j
  {
    if j > 0 {
      DrainExtends(sys, j - 1, hdr);
    }
  }

  /** One show() inside the display pass adds the file's remaining bytes
      to the payload written so far. */
  lemma DrainStep(prev: Sys, k: nat, hdr: bool, base: seq<byte>, before: seq<byte>)
    requires SysOk(prev) && k < |prev.files| && prev.files[k].fp.Some?
    requires Payload(prev.out) == base + before
    ensures Payload(ShowSpec(prev, k, hdr).0.out) == base + (before + prev.files[k].fp.value.Rest())
  {
    var es := ShowEvents(prev, k, hdr);
    ShowPayload(prev, k, hdr);
    PayloadAppend(prev.out, es);
    AppendAssoc3(base, before, prev.files[k].fp.value.Rest());
  }

  /** The display pass shows every OPEN file's remaining bytes, file after
      file in array order. */
  lemma {:induction false} DrainInOrder(sys: Sys, j: nat, hdr: bool)
    requires SysOk(sys) && j <= |sys.files|
    ensures Payload(DrainUpTo(sys, j, hdr).out) == Payload(sys.out) + OpenRests(sys.files, j)
    decreases j
  {
    if j == 0 {
      assert OpenRests(sys.files, 0) == [];
    } else {
      DrainInOrder(sys, j - 1, hdr);
      var prev := DrainUpTo(sys, j - 1, hdr);
      var before := OpenRests(sys.files, j - 1);
      var f := sys.files[j - 1];
      assert prev.files[j - 1] == f;
      if f.fp.Some? {
        DrainStep(prev, j - 1, hdr, Payload(sys.out), before);
        assert OpenRests(sys.files, j) == before + f.fp.value.Rest();
      } else {
        assert OpenRests(sys.files, j) == before;
      }
    }
  }

  /** An OPEN file whose stream has nothing left and no error pending. */
  predicate AtEnd(f: FileInfo)
    requires FileOk(f)
  {
    f.fp.Some? ==> f.fp.value.Rest() == [] && !f.fp.value.error
  }

  /** After the display pass every file still OPEN is at its end with its
      error flag clear. */
  lemma {:induction false} DrainLeavesNothing(sys: Sys, j: nat, hdr: bool)
    requires SysOk(sys) && j <= |sys.files|
    ensures forall k :: 0 <= k < j ==> AtEnd(DrainUpTo(sys, j, hdr).files[k])
    decreases j
  {
    if j > 0 {
      DrainLeavesNothing(sys, j - 1, hdr);
      var prev := DrainUpTo(sys, j - 1, hdr);
      var r := DrainUpTo(sys, j, hdr);
      forall k | 0 <= k < j
        ensures AtEnd(r.files[k])
      {
        if k < j - 1 {
          assert r.files[k] == prev.files[k];
        }
      }
    }
  }

  // ----- who wrote the last header -----

  /** Tracks depends on the files only through their names. */
  lemma TracksByNames(sys: Sys, files: seq<FileInfo>)
    requires SysOk(sys) && SysOk(sys.(files := files)) && |files| == |sys.files|
    requires forall k :: 0 <= k < |files| ==> files[k].name == sys.files[k].name
    ensures Tracks(sys.(files := files)) == Tracks(sys)
  {
  }

  /** A report is not a header. */
  lemma ReportKeepsTrack(sys: Sys, name: string)
    requires SysOk(sys) && Tracks(sys)
    ensures Tracks(sys.(out := sys.out + [ReadError(name)]))
  {
    LastHeaderAppend(sys.out, [ReadError(name)]);
    assert [ReadError(name)][..0] == [];
  }

  /** Adopting a reopened file changes no name and writes nothing. */
  lemma ProbeClosedKeepsTrack(sys: Sys, i: nat, w: Open, hdr: bool)
    requires SysOk(sys) && i < |sys.files| && OpenOk(w) && Tracks(sys)
    requires sys.files[i].fp.None?
    ensures Tracks(ProbeOne(sys, i, w, hdr))
  {
    var r := ProbeOne(sys, i, w, hdr);
    assert r == sys.(files := r.files);
    TracksByNames(sys, r.files);
  }

  /** Draining and closing a vanished file keeps the header tracking. */
  lemma ProbeGoneKeepsTrack(sys: Sys, i: nat, enoent: bool, hdr: bool)
    requires SysOk(sys) && i < |sys.files| && hdr && Tracks(sys)
    requires sys.files[i].fp.Some? && !sys.files[i].fp.value.isStdin
    ensures Tracks(ProbeOne(sys, i, Gone(enoent), hdr))
  {
    var f := sys.files[i];
    var r := ProbeOne(sys, i, Gone(enoent), hdr);
    var sys1 := if enoent then sys else sys.(out := sys.out + [ReadError(f.name)]);
    if !enoent {
      ReportKeepsTrack(sys, f.name);
    }
    ShowKeepsTrack(sys1, i, hdr);
    var sys2 := ShowSpec(sys1, i, hdr).0;
    assert r == sys2.(files := r.files);
    assert SysOk(sys2.(files := r.files));
    TracksByNames(sys2, r.files);
  }

  /** Draining a replaced file and swapping in its successor keeps the
      header tracking. */
  lemma ProbeGotKeepsTrack(sys: Sys, i: nat, h: Stream, st2: Stat, hdr: bool)
    requires SysOk(sys) && i < |sys.files| && OpenOk(Got(h, st2)) && hdr && Tracks(sys)
    requires sys.files[i].fp.Some? && !sys.files[i].fp.value.isStdin
    ensures Tracks(ProbeOne(sys, i, Got(h, st2), hdr))
  {
    var r := ProbeOne(sys, i, Got(h, st2), hdr);
    if Replaced(sys.files[i].st, st2) {
      ShowKeepsTrack(sys, i, hdr);
      var sys2 := ShowSpec(sys, i, hdr).0;
      assert r == sys2.(files := r.files);
      assert SysOk(sys2.(files := r.files));
      TracksByNames(sys2, r.files);
    }
  }

  /** With headers on, a probe keeps `last` naming the writer of the last
      header. */
  lemma ProbeKeepsTrack(sys: Sys, i: nat, w: Open, hdr: bool)
    requires SysOk(sys) && i < |sys.files| && OpenOk(w) && hdr && Tracks(sys)
    ensures Tracks(ProbeOne(sys, i, w, hdr))
  {
    var f := sys.files[i];
    if f.fp.None? {
      ProbeClosedKeepsTrack(sys, i, w, hdr);
    } else if !f.fp.value.isStdin {
      match w
      case Gone(enoent) => ProbeGoneKeepsTrack(sys, i, enoent, hdr);
      case Got(h, st2) => ProbeGotKeepsTrack(sys, i, h, st2, hdr);
    }
  }

  lemma {:induction false} ProbeUpToKeepsTrack(sys: Sys, world: seq<Open>, j: nat, hdr: bool)
    requires SysOk(sys) && j <= |sys.files| && |world| == |sys.files|
    requires forall k :: 0 <= k < |world| ==> OpenOk(world[k])
    requires hdr && Tracks(sys)
    ensures Tracks(ProbeUpTo(sys, world, j, hdr))
    decreases j
  {
    if j > 0 {
      ProbeUpToKeepsTrack(sys, world, j - 1, hdr);
      ProbeKeepsTrack(ProbeUpTo(sys, world, j - 1, hdr), j - 1, world[j - 1], hdr);
    }
  }

  lemma {:induction false} DrainKeepsTrack(sys: Sys, j: nat, hdr: bool)
    requires SysOk(sys) && j <= |sys.files| && hdr && Tracks(sys)
    ensures Tracks(DrainUpTo(sys, j, hdr))
    decreases j
  {
    if j > 0 {
      DrainKeepsTrack(sys, j - 1, hdr);
      var prev := DrainUpTo(sys, j - 1, hdr);
      if prev.files[j - 1].fp.Some? {
        ShowKeepsTrack(prev, j - 1, hdr);
      }
    }
  }

  /** With headers on, every iteration of follow() keeps `last` naming the
      file that wrote the last header, so show() writes a header exactly
      when output switches to another file. */
  lemma IterationKeepsTrack(sys: Sys, world: seq<Open>, fflag: bool, hdr: bool)
    requires SysOk(sys) && |world| == |sys.files|
    requires forall k :: 0 <= k < |world| ==> OpenOk(world[k])
    requires hdr && Tracks(sys)
    ensures Tracks(FollowIteration(sys, world, fflag, hdr))
  {
    var mid := if fflag then ProbeUpTo(sys, world, |sys.files|, hdr) else sys;
    if fflag {
      ProbeUpToKeepsTrack(sys, world, |sys.files|, hdr);
    }
    DrainKeepsTrack(mid, |sys.files|, hdr);
  }

  // ----- the imperative engine -----

  /** The state follow() works on: the files array, the flags that decide
      headers, the module-global `last` and the output written so far. */
  class Follower {
    const files: array<FileInfo>
    const vflag: bool
    const qflag: bool
    var last: int
    var out: seq<Event>

    ghost predicate Valid()
      reads this, files
    {
      SysOk(Abs())
    }

    function Abs(): Sys
      reads this, files
    {
      Sys(files[..], last, out)
    }

    function Hdr(): bool
    {
      HeaderOn(vflag, qflag, files.Length)
    }

    constructor (files: array<FileInfo>, vflag: bool, qflag: bool)
      requires forall k :: 0 <= k < files.Length ==> FileOk(files[k])
      ensures Valid() && this.files == files && this.vflag == vflag && this.qflag == qflag
      ensures last == -1 && out == []
    {
      this.files := files;
      this.vflag := vflag;
      this.qflag := qflag;
      last := -1;
      out := [];
    }

    /** show(): copy file i's remaining bytes to the output; on a read error
        report it and close the file. */
    method Show(i: nat) returns (ok: bool)
      requires Valid() && i < files.Length && files[i].fp.Some?
      modifies this, files
      ensures Valid()
      ensures (Abs(), ok) == ShowSpec(old(Abs()), i, Hdr())
    {
      ghost var sys0 := Abs();
      var f := files[i];
      var s;
      s, last, out := CopyRest(i, f.name, f.fp.value, last, out, Hdr());
      ghost var copied := out;
      var g := f.(fp := Some(s));
      ok := true;
      if s.error {
        g := f.(fp := None);
        out := out + [ReadError(f.name)];
        ok := false;
      }
      ShowOutcome(sys0, i, Hdr(), copied, out);
      files[i] := g;
      assert files[..] == sys0.files[i := g];
    }

    /** One file of the -F pass of follow(). */
    method Probe(i: nat, w: Open)
      requires Valid() && i < files.Length && OpenOk(w)
      modifies this, files
      ensures Valid()
      ensures Abs() == ProbeOne(old(Abs()), i, w, Hdr())
    {
      var f := files[i];
      if f.fp.None? {
        if w.Got? {
          files[i] := f.(fp := Some(w.h), st := w.st);
        }
        return;
      }
      if f.fp.value.isStdin {
        return;
      }
      match w
      case Gone(enoent) =>
        if !enoent {
          out := out + [ReadError(f.name)];
        }
        ghost var sys1 := Abs();
        var _ := Show(i);
        ghost var sys2 := Abs();
        assert sys2 == ShowSpec(sys1, i, Hdr()).0;
        files[i] := files[i].(fp := None);
        assert files[..] == sys2.files[i := sys2.files[i].(fp := None)];
      case Got(h, st2) =>
        if st2.ino != f.st.ino || st2.dev != f.st.dev || st2.nlink == 0 {
          var _ := Show(i);
          ghost var sys2 := Abs();
          files[i] := files[i].(fp := Some(h), st := st2);
          assert files[..] == sys2.files[i := sys2.files[i].(fp := Some(h), st := st2)];
        }
    }

    /** One iteration of the for(;;) loop of follow(): the -F pass when
        fflag, then show() for every OPEN file. `world` holds, per file, what
        reopening its path gives in this iteration. */
    method Iterate(world: seq<Open>, fflag: bool)
      requires Valid() && |world| == files.Length
      requires forall k :: 0 <= k < |world| ==> OpenOk(world[k])
      modifies this, files
      ensures Valid()
      ensures Abs() == FollowIteration(old(Abs()), world, fflag, Hdr())
    {
      if fflag {
        ProbeAll(world);
      }
      DisplayAll();
    }

    /** follow() up to its loop: position every file, then answer whether
        the loop is entered, setting `last` to the last file positioned. */
    method Start(style: Style, off: nat, dOk: seq<bool>, fflag: bool) returns (cont: bool)
      requires Valid() && Described(files[..]) && |dOk| == files.Length
      modifies this, files
      ensures Valid()
      ensures (Abs(), cont) == StartSpec(old(Abs()), style, off, dOk, fflag, Hdr())
    {
      var active := PositionAll(style, off, dOk);
      if !fflag && active < 0 {
        return false;
      }
      last := active;
      cont := true;
    }

    /** The positioning loop: header and forward() for every OPEN file;
        answers the index of the last one, or -1. */
    method PositionAll(style: Style, off: nat, dOk: seq<bool>) returns (active: int)
      requires Valid() && Described(files[..]) && |dOk| == files.Length
      modifies this, files
      ensures Valid()
      ensures Abs() == StartUpTo(old(Abs()), files.Length, style, off, dOk, Hdr())
      ensures active == LastOpen(old(files[..]), files.Length)
    {
      ghost var sys0 := Abs();
      active := -1;
      var i := 0;
      while i < files.Length
        invariant 0 <= i <= files.Length && Valid()
        invariant Abs() == StartUpTo(sys0, i, style, off, dOk, Hdr())
        invariant active == LastOpen(sys0.files, i)
      {
        assert files[i] == sys0.files[i];
        if files[i].fp.Some? {
          active := i;
        }
        PositionStep(sys0, i, style, off, dOk);
        i := i + 1;
      }
    }

    /** One turn of the positioning loop, on file i. */
    method PositionStep(ghost sys0: Sys, i: nat, style: Style, off: nat, dOk: seq<bool>)
      requires Valid() && SysOk(sys0) && Described(sys0.files)
      requires i < files.Length == |sys0.files| == |dOk|
      requires Abs() == StartUpTo(sys0, i, style, off, dOk, Hdr())
      modifies this, files
      ensures Valid() && Abs() == StartUpTo(sys0, i + 1, style, off, dOk, Hdr())
    {
      ghost var prev := Abs();
      var f := files[i];
      StartUpToStep(sys0, i, style, off, dOk, Hdr());
      if f.fp.Some? {
        var g, o := PositionFile(f, out, Hdr(), style, off, dOk[i]);
        out := o;
        files[i] := g;
        assert files[..] == prev.files[i := g];
      }
    }

    /** The -F pass: Probe every file in array order. */
    method ProbeAll(world: seq<Open>)
      requires Valid() && |world| == files.Length
      requires forall k :: 0 <= k < |world| ==> OpenOk(world[k])
      modifies this, files
      ensures Valid()
      ensures Abs() == ProbeUpTo(old(Abs()), world, files.Length, Hdr())
    {
      ghost var sys0 := Abs();
      var i := 0;
      while i < files.Length
        invariant 0 <= i <= files.Length && Valid()
        invariant Abs() == ProbeUpTo(sys0, world, i, Hdr())
      {
        ProbeUpToStep(sys0, world, i, Hdr());
        Probe(i, world[i]);
        i := i + 1;
      }
    }

    /** The display pass: show() every OPEN file in array order. */
    method DisplayAll()
      requires Valid()
      modifies this, files
      ensures Valid()
      ensures Abs() == DrainUpTo(old(Abs()), files.Length, Hdr())
    {
      ghost var sys0 := Abs();
      var i := 0;
      while i < files.Length
        invariant 0 <= i <= files.Length && Valid()
        invariant Abs() == DrainUpTo(sys0, i, Hdr())
      {
        DrainUpToStep(sys0, i, Hdr());
        if files[i].fp.Some? {
          var _ := Show(i);
        }
        i := i + 1;
      }
    }
  }
}
