/** The robust I/O package.  The kernel answers each read or write as an arbitrary schedule says:
    with fewer bytes than asked for, with an interruption, or with an error. */
module Rio {
  newtype Byte = b: int | 0 <= b < 256

  const NEWLINE: Byte := 10

  /** The kernel's answer to one call. */
  datatype Reply = Interrupted | Failed | Chunk(k: nat)

  datatype Errno = EINTR | EIO

  function Min(a: nat, b: nat): nat { if a <= b then a else b }

  /** An open file: what is left to read, what has been written, and how the kernel will answer.
      Once the schedule is used up, calls are answered in full. */
  class Descriptor {
    var file: seq<Byte>
    var sink: seq<Byte>
    var schedule: seq<Reply>
    var errno: Errno

    constructor (file: seq<Byte>, schedule: seq<Reply>)
      ensures this.file == file && this.schedule == schedule && sink == []
    {
      this.file, this.sink, this.schedule, this.errno := file, [], schedule, EIO;
    }

    /** The schedule loses at most its first reply. */
    twostate predicate ScheduleMoves()
      reads this
    {
      schedule == old(schedule) || (old(schedule) != [] && schedule == old(schedule)[1..])
    }

    /** read(2): -1 with errno set, or the number of bytes, which is 0 only at the end of the file. */
    method Read(size: nat) returns (n: int, data: seq<Byte>)
      modifies this
      ensures ScheduleMoves() && sink == old(sink)
      ensures n == -1 ==>
                && data == [] && file == old(file) && |schedule| < |old(schedule)|
                && (errno != EINTR ==> Failed in old(schedule))
      ensures n != -1 ==>
                && n == |data| <= size && old(file) == data + file
                && (n == 0 <==> size == 0 || old(file) == [])
    {
      data := [];
      var k := size;
      if schedule != [] {
        var reply := schedule[0];
        schedule := schedule[1..];
        if !reply.Chunk? {
          errno := if reply == Interrupted then EINTR else EIO;
          return -1, [];
        }
        k := Min(if reply.k == 0 then 1 else reply.k, size);
      }
      n := Min(k, |file|);
      data, file := file[..n], file[n..];
    }

    /** write(2): -1 with errno set, or the number of bytes written, possibly none. */
    method Write(data: seq<Byte>) returns (n: int)
      modifies this
      ensures ScheduleMoves() && file == old(file)
      ensures n == -1 ==>
                && sink == old(sink) && |schedule| < |old(schedule)|
                && (errno != EINTR ==> Failed in old(schedule))
      ensures n != -1 ==> 0 <= n <= |data| && sink == old(sink) + data[..n] && errno == old(errno)
      ensures n == 0 && data != [] ==> Chunk(0) in old(schedule) && |schedule| < |old(schedule)|
    {
      n := |data|;
      if schedule != [] {
        var reply := schedule[0];
        schedule := schedule[1..];
        if !reply.Chunk? {
          errno := if reply == Interrupted then EINTR else EIO;
          return -1;
        }
        n := Min(reply.k, |data|);
      }
      sink := sink + data[..n];
    }
  }

  /** k bytes have moved from the front of the stream to the front of the user's buffer. */
  ghost predicate Delivered(stream: seq<Byte>, usrbuf: seq<Byte>, k: int, rest: seq<Byte>) {
    0 <= k <= |stream| && k <= |usrbuf| && usrbuf[..k] == stream[..k] && rest == stream[k..]
  }

  lemma DeliverMore(stream: seq<Byte>, usrbuf: seq<Byte>, k: nat, rest: seq<Byte>, n: nat, rest': seq<Byte>)
    requires k + n <= |usrbuf| && k <= |stream| && usrbuf[..k] == stream[..k] && rest == stream[k..]
    requires n <= |rest| && usrbuf[k..k + n] == rest[..n] && rest' == rest[n..]
    ensures Delivered(stream, usrbuf, k + n, rest')
  {
    assert usrbuf[..k + n] == usrbuf[..k] + usrbuf[k..k + n];
    assert stream[..k + n] == stream[..k] + rest[..n];
  }

  /** One more byte has been delivered. */
  lemma StoreByte(stream: seq<Byte>, usrbuf: seq<Byte>, k: nat, rest: seq<Byte>, c: Byte, rest': seq<Byte>)
    requires k < |usrbuf| && k <= |stream| && usrbuf[..k] == stream[..k] && usrbuf[k] == c
    requires rest == stream[k..] && rest == [c] + rest'
    ensures Delivered(stream, usrbuf, k + 1, rest') && stream[k] == c
  {
    assert stream[k] == rest[0];
    assert usrbuf[..k + 1] == usrbuf[..k] + [c] && stream[..k + 1] == stream[..k] + [c];
  }

  /** rio_readn: unbuffered; short only at the end of the file. */
  method ReadN(fd: Descriptor, usrbuf: array<Byte>, n: nat) returns (rc: int)
    requires n <= usrbuf.Length
    modifies fd, usrbuf
    ensures Failed !in old(fd.schedule) ==> rc != -1
    ensures rc != -1 ==> rc == Min(n, |old(fd.file)|) && Delivered(old(fd.file), usrbuf[..], rc, fd.file)
    ensures rc != -1 ==> usrbuf[rc..] == old(usrbuf[rc..])
    ensures rc == -1 ==> exists k :: Delivered(old(fd.file), usrbuf[..], k, fd.file)
  {
    var got := 0;
    while got < n
      invariant 0 <= got <= n
      invariant got <= |old(fd.file)| && fd.file == old(fd.file)[got..]
      invariant usrbuf[..got] == old(fd.file)[..got] && usrbuf[got..] == old(usrbuf[got..])
      invariant forall r :: r in fd.schedule ==> r in old(fd.schedule)
      decreases |fd.schedule| + (n - got)
    {
      var nread, data := fd.Read(n - got);
      if nread == -1 {
        if fd.errno != EINTR {
          assert Delivered(old(fd.file), usrbuf[..], got, fd.file);
          return -1;
        }
      } else if nread == 0 {
        break;
      } else {
        CopyIn(usrbuf, got, data);
        got := got + nread;
      }
    }
    rc := got;
  }

  /** rio_writen: everything is written, in order, or an error is reported and only a prefix is. */
  method WriteN(fd: Descriptor, usrbuf: array<Byte>, n: nat) returns (rc: int)
    requires n <= usrbuf.Length
    modifies fd
    ensures rc == n || rc == -1
    ensures rc == n ==> fd.sink == old(fd.sink) + usrbuf[..n]
    ensures rc == -1 ==> exists k :: 0 <= k <= n && fd.sink == old(fd.sink) + usrbuf[..k]
    ensures Failed !in old(fd.schedule) && Chunk(0) !in old(fd.schedule) ==> rc == n
  {
    var done := 0;
    while done < n
      invariant 0 <= done <= n
      invariant fd.sink == old(fd.sink) + usrbuf[..done]
      invariant forall r :: r in fd.schedule ==> r in old(fd.schedule)
      decreases |fd.schedule| + (n - done)
    {
      var nwritten := fd.Write(usrbuf[done..n]);
      if nwritten <= 0 {
        if fd.errno != EINTR {
          if nwritten == 0 {
            assert usrbuf[done..n][..0] == [];
          }
          return -1;
        }
        nwritten := 0;
      }
      assert usrbuf[..done] + usrbuf[done..n][..nwritten] == usrbuf[..done + nwritten];
      done := done + nwritten;
    }
    rc := n;
  }

  /** memcpy(usrbuf + at, data, |data|). */
  method CopyIn(usrbuf: array<Byte>, at: nat, data: seq<Byte>)
    requires at + |data| <= usrbuf.Length
    modifies usrbuf
    ensures usrbuf[..at] == old(usrbuf[..at])
    ensures usrbuf[at..at + |data|] == data
    ensures usrbuf[at + |data|..] == old(usrbuf[at + |data|..])
  {
    for i := 0 to |data|
      invariant usrbuf[..at] == old(usrbuf[..at])
      invariant usrbuf[at..at + i] == data[..i]
      invariant usrbuf[at + i..] == old(usrbuf[at + i..])
    {
      usrbuf[at + i] := data[i];
      assert usrbuf[at..at + i + 1] == usrbuf[at..at + i] + [data[i]];
    }
    assert data[..|data|] == data;
  }

  // ----- Buffered input -----

  /** How many bytes rio_readlineb takes: up to and including the first newline, but at most
      `limit`, and no more than there are. */
  function LineLength(s: seq<Byte>, limit: nat): (n: nat)
    ensures n <= limit && n <= |s|
  {
    if limit == 0 || s == [] then 0
    else if s[0] == NEWLINE then 1
    else 1 + LineLength(s[1..], limit - 1)
  }

  /** It is the shortest prefix that ends in a newline, cut at the limit or the end of the stream. */
  lemma {:induction false} LineLengthIsShortest(s: seq<Byte>, limit: nat)
    ensures var n := LineLength(s, limit);
      && (forall i :: 0 <= i < n - 1 ==> s[i] != NEWLINE)
      && (n == limit || n == |s| || (n > 0 && s[n - 1] == NEWLINE))
  {
    if limit > 0 && s != [] && s[0] != NEWLINE {
      LineLengthIsShortest(s[1..], limit - 1);
      var n := LineLength(s, limit);
      forall i | 0 <= i < n - 1 ensures s[i] != NEWLINE {
        if i > 0 {
          assert s[i] == s[1..][i - 1];
        }
      }
    }
  }

  /** And it is the only such prefix. */
  lemma {:induction false} LineLengthIsUnique(s: seq<Byte>, limit: nat, n: nat)
    requires n <= limit && n <= |s|
    requires forall i :: 0 <= i < n - 1 ==> s[i] != NEWLINE
    requires n == limit || n == |s| || (n > 0 && s[n - 1] == NEWLINE)
    ensures LineLength(s, limit) == n
  {
    if n > 0 && s[0] != NEWLINE {
      forall i | 0 <= i < n - 2 ensures s[1..][i] != NEWLINE {
        assert s[1..][i] == s[i + 1];
      }
      LineLengthIsUnique(s[1..], limit - 1, n - 1);
    }
  }

  /** The most bytes rio_readlineb stores before the NUL. */
  function Limit(maxlen: nat): nat { if maxlen == 0 then 0 else maxlen - 1 }

  /** The value rio_readlineb returns: the number of bytes stored if they end in a newline, one more
      if they do not, and 0 at the end of the stream. */
  function LineReturn(stream: seq<Byte>, maxlen: nat): nat
  {
    var n := LineLength(stream, Limit(maxlen));
    if maxlen > 1 && stream == [] then 0
    else if n > 0 && stream[n - 1] == NEWLINE then n
    else n + 1
  }

  /** What a successful rio_readlineb leaves behind: the line, then NUL - or nothing at all at the
      end of the stream.  A maxlen of 0 does not keep the NUL from being stored. */
  ghost predicate LineRead(stream: seq<Byte>, maxlen: nat, usrbuf: seq<Byte>, rc: int, rest: seq<Byte>)
  {
    var n := LineLength(stream, Limit(maxlen));
    && rc == LineReturn(stream, maxlen)
    && Delivered(stream, usrbuf, n, rest)
    && (rc > 0 ==> n < |usrbuf| && usrbuf[n] == 0)
  }

  /** The three ways its loop ends: on a newline, on the limit, and at the end of the stream. */
  ghost predicate LineStored(stream: seq<Byte>, maxlen: nat, usrbuf: seq<Byte>, stored: nat, n: nat, rest: seq<Byte>) {
    && Delivered(stream, usrbuf, stored, rest)
    && (forall i :: 0 <= i < stored - 1 ==> stream[i] != NEWLINE)
    && (|| (n == stored && 0 < n < maxlen && stream[stored - 1] == NEWLINE)
        || (n == stored + 1 && (stored > 0 ==> stream[stored - 1] != NEWLINE)
            && (n == maxlen || (n == 1 && maxlen == 0) || (1 < n < maxlen && stored == |stream|))))
  }

  lemma LineEnds(stream: seq<Byte>, maxlen: nat, usrbuf: seq<Byte>, stored: nat, n: nat, rest: seq<Byte>)
    requires LineStored(stream, maxlen, usrbuf, stored, n, rest)
    requires stored < |usrbuf| && usrbuf[stored] == 0
    ensures LineRead(stream, maxlen, usrbuf, n, rest)
  {
    LineLengthIsUnique(stream, Limit(maxlen), stored);
  }

  /** At the end of the stream nothing is stored. */
  lemma NoLine(maxlen: nat, usrbuf: seq<Byte>)
    requires maxlen > 1
    ensures LineRead([], maxlen, usrbuf, 0, [])
  {
  }

  /** *bufp = 0. */
  method EndLine(usrbuf: array<Byte>, ghost maxlen: nat, stored: nat, ghost n: nat, ghost stream: seq<Byte>,
            ghost rest: seq<Byte>)
    requires LineStored(stream, maxlen, usrbuf[..], stored, n, rest) && stored < usrbuf.Length
    modifies usrbuf
    ensures LineRead(stream, maxlen, usrbuf[..], n, rest)
  {
    ghost var line := usrbuf[..stored];
    usrbuf[stored] := 0;
    assert usrbuf[..stored] == line;
    LineEnds(stream, maxlen, usrbuf[..], stored, n, rest);
  }

  lemma TakeFront(window: seq<Byte>, file: seq<Byte>, k: nat)
    requires k <= |window|
    ensures (window + file)[..k] == window[..k] && (window + file)[k..] == window[k..] + file
  {
  }

  /** rio_t: a descriptor with a window of unread bytes inside an internal buffer. */
  class RioBuf {
    const fd: Descriptor
    const buf: array<Byte>
    var cnt: int
    var ptr: nat

    ghost predicate Valid()
      reads this
    {
      buf.Length >= 1 && (cnt > 0 ==> ptr + cnt <= buf.Length)
    }

    /** The bytes still to be delivered: the unread window, then the unread file. */
    ghost function Unread(): seq<Byte>
      requires Valid()
      reads this, fd, buf
    {
      (if cnt > 0 then buf[ptr..ptr + cnt] else []) + fd.file
    }

    /** rio_readinitb. */
    constructor (fd: Descriptor, size: nat)
      requires size >= 1
      ensures Valid() && this.fd == fd && fresh(buf) && Unread() == fd.file
    {
      this.fd := fd;
      this.buf := new Byte[size](_ => 0);
      this.cnt := 0;
      this.ptr := 0;
    }

    /** The refill loop of rio_read: afterwards the window is not empty (1), or the stream has ended
        (0), or the kernel has reported an error (-1). */
    method Refill() returns (rc: int)
      requires Valid()
      modifies this, fd, buf
      ensures Valid() && Unread() == old(Unread())
      ensures rc == -1 || rc == 0 || rc == 1
      ensures rc == -1 ==> cnt <= 0 && Failed in old(fd.schedule)
      ensures rc == 0 ==> cnt <= 0 && Unread() == []
      ensures rc == 1 ==> cnt > 0
      ensures |fd.schedule| <= |old(fd.schedule)|
      ensures forall r :: r in fd.schedule ==> r in old(fd.schedule)
    {
      while cnt <= 0
        invariant Valid() && Unread() == old(Unread())
        invariant |fd.schedule| <= |old(fd.schedule)|
        invariant forall r :: r in fd.schedule ==> r in old(fd.schedule)
        decreases if cnt <= 0 then 1 else 0, |fd.schedule|
      {
        var n, data := fd.Read(buf.Length);
        CopyIn(buf, 0, data);
        cnt := n;
        if n == -1 {
          if fd.errno != EINTR {
            return -1;
          }
        } else if n == 0 {
          return 0;
        } else {
          ptr := 0;
          assert buf[ptr..ptr + cnt] == data;
        }
      }
      rc := 1;
    }

    /** The copying part of rio_read. */
    method Take(usrbuf: array<Byte>, at: nat, n: nat) returns (k: nat)
      requires Valid() && cnt > 0 && usrbuf != buf && at + n <= usrbuf.Length
      modifies this`cnt, this`ptr, usrbuf
      ensures Valid() && k <= n && (k == 0 <==> n == 0)
      ensures k <= |old(Unread())| && Unread() == old(Unread())[k..]
      ensures usrbuf[..at] == old(usrbuf[..at]) && usrbuf[at + k..] == old(usrbuf[at + k..])
      ensures usrbuf[at..at + k] == old(Unread())[..k]
    {
      k := if cnt < n then cnt else n;
      ghost var window := buf[ptr..ptr + cnt];
      assert Unread() == window + fd.file;
      TakeFront(window, fd.file, k);
      assert window[..k] == buf[ptr..ptr + k] && window[k..] == buf[ptr + k..ptr + cnt];
      CopyIn(usrbuf, at, buf[ptr..ptr + k]);
      ptr := ptr + k;
      cnt := cnt - k;
      assert (if cnt > 0 then buf[ptr..ptr + cnt] else []) == window[k..];
    }

    /** rio_read. */
    method Read(usrbuf: array<Byte>, at: nat, n: nat) returns (rc: int)
      requires Valid() && usrbuf != buf && at + n <= usrbuf.Length
      modifies this, fd, buf, usrbuf
      ensures Valid() && -1 <= rc <= n
      ensures rc <= 0 ==> Unread() == old(Unread()) && usrbuf[..] == old(usrbuf[..])
      ensures rc == -1 ==> Failed in old(fd.schedule)
      ensures rc == 0 ==> n == 0 || Unread() == []
      ensures rc > 0 ==>
                && rc <= |old(Unread())| && Unread() == old(Unread())[rc..]
                && usrbuf[..at] == old(usrbuf[..at])
                && usrbuf[at..at + rc] == old(Unread())[..rc]
                && usrbuf[at + rc..] == old(usrbuf[at + rc..])
      ensures forall r :: r in fd.schedule ==> r in old(fd.schedule)
    {
      var filled := Refill();
      if filled != 1 {
        return filled;
      }
      rc := Take(usrbuf, at, n);
      if rc == 0 {
        assert usrbuf[..] == usrbuf[..at] + usrbuf[at..];
        assert old(usrbuf[..]) == old(usrbuf[..at]) + old(usrbuf[at..]);
      }
    }

    /** rio_readnb: min(n, bytes left) bytes, whatever the schedule. */
    method ReadNB(usrbuf: array<Byte>, n: nat) returns (rc: int)
      requires Valid() && usrbuf != buf && n <= usrbuf.Length
      modifies this, fd, buf, usrbuf
      ensures Valid()
      ensures Failed !in old(fd.schedule) ==> rc != -1
      ensures rc != -1 ==> rc == Min(n, |old(Unread())|) && Delivered(old(Unread()), usrbuf[..], rc, Unread())
      ensures rc != -1 ==> usrbuf[rc..] == old(usrbuf[rc..])
      ensures rc == -1 ==> exists k :: Delivered(old(Unread()), usrbuf[..], k, Unread())
      ensures forall r :: r in fd.schedule ==> r in old(fd.schedule)
    {
      ghost var stream := Unread();
      var got := 0;
      while got < n
        invariant Valid() && 0 <= got <= n
        invariant Delivered(stream, usrbuf[..], got, Unread())
        invariant usrbuf[got..] == old(usrbuf[got..])
        invariant forall r :: r in fd.schedule ==> r in old(fd.schedule)
      {
        // Interruptions never come this far: rio_read has retried them.
        ghost var before := Unread();
        var nread := Read(usrbuf, got, n - got);
        if nread == -1 {
          return -1;
        }
        if nread == 0 {
          break;
        }
        DeliverMore(stream, usrbuf[..], got, before, nread, Unread());
        got := got + nread;
      }
      rc := got;
    }

    /** rio_read(rp, &c, 1). */
    method ReadChar() returns (rc: int, c: Byte)
      requires Valid()
      modifies this, fd, buf
      ensures Valid() && -1 <= rc <= 1
      ensures rc == -1 ==> Unread() == old(Unread()) && Failed in old(fd.schedule)
      ensures rc == 0 ==> Unread() == old(Unread()) == []
      ensures rc == 1 ==> old(Unread()) == [c] + Unread()
      ensures forall r :: r in fd.schedule ==> r in old(fd.schedule)
    {
      var usrbuf := new Byte[1];
      rc := Read(usrbuf, 0, 1);
      c := usrbuf[0];
      assert usrbuf[0..1] == [c];
    }

    /** One character of the stream, read and stored. */
    method StoreNext(usrbuf: array<Byte>, stored: nat, ghost stream: seq<Byte>) returns (got: int, c: Byte)
      requires Valid() && usrbuf != buf && stored < usrbuf.Length && Delivered(stream, usrbuf[..], stored, Unread())
      modifies this, fd, buf, usrbuf
      ensures Valid() && -1 <= got <= 1
      ensures got == 1 ==> stored < |stream| && stream[stored] == c
      ensures got == 1 ==> Delivered(stream, usrbuf[..], stored + 1, Unread())
      ensures got != 1 ==> usrbuf[..] == old(usrbuf[..]) && Delivered(stream, usrbuf[..], stored, Unread())
      ensures got == 0 ==> stored == |stream|
      ensures got == -1 ==> Failed in old(fd.schedule)
      ensures forall r :: r in fd.schedule ==> r in old(fd.schedule)
    {
      ghost var before := Unread();
      got, c := ReadChar();
      if got == 1 {
        usrbuf[stored] := c;
        StoreByte(stream, usrbuf[..], stored, before, c, Unread());
      }
    }

    /** The loop of rio_readlineb: 1 if there is a line to be ended, 0 at the end of the stream. */
    method ReadChars(usrbuf: array<Byte>, maxlen: nat) returns (rc: int, stored: nat, n: nat)
      requires Valid() && usrbuf != buf && maxlen <= usrbuf.Length && usrbuf.Length >= 1
      modifies this, fd, buf, usrbuf
      ensures Valid() && -1 <= rc <= 1 && stored < usrbuf.Length
      ensures rc == 1 ==> LineStored(old(Unread()), maxlen, usrbuf[..], stored, n, Unread())
      ensures rc == 0 ==> maxlen > 1 && old(Unread()) == Unread() == [] && usrbuf[..] == old(usrbuf[..])
      ensures rc == -1 ==> Failed in old(fd.schedule) && Delivered(old(Unread()), usrbuf[..], stored, Unread())
      ensures forall r :: r in fd.schedule ==> r in old(fd.schedule)
    {
      ghost var stream := Unread();
      stored, n := 0, 1;
      while n < maxlen
        invariant Valid() && (1 <= n <= maxlen || n == 1) && stored == n - 1
        invariant Delivered(stream, usrbuf[..], stored, Unread())
        invariant forall i :: 0 <= i < stored ==> stream[i] != NEWLINE
        invariant stored == 0 ==> usrbuf[..] == old(usrbuf[..])
        invariant forall r :: r in fd.schedule ==> r in old(fd.schedule)
      {
        var got, c := StoreNext(usrbuf, stored, stream);
        if got == 1 {
          stored := stored + 1;
          if c == NEWLINE {
            return 1, stored, n;
          }
        } else if got == 0 {
          return if n == 1 then 0 else 1, stored, n;
        } else {
          return -1, stored, n;
        }
        n := n + 1;
      }
      rc := 1;
    }

    /** rio_readlineb. */
    method ReadLineB(usrbuf: array<Byte>, maxlen: nat) returns (rc: int)
      requires Valid() && usrbuf != buf && maxlen <= usrbuf.Length && usrbuf.Length >= 1
      modifies this, fd, buf, usrbuf
      ensures Valid()
      ensures Failed !in old(fd.schedule) ==> rc != -1
      ensures rc != -1 ==> LineRead(old(Unread()), maxlen, usrbuf[..], rc, Unread())
      ensures rc == 0 ==> usrbuf[..] == old(usrbuf[..])
      ensures rc == -1 ==> exists k :: Delivered(old(Unread()), usrbuf[..], k, Unread())
      ensures forall r :: r in fd.schedule ==> r in old(fd.schedule)
    {
      var stored, n;
      rc, stored, n := ReadChars(usrbuf, maxlen);
      ghost var rest := Unread();
      if rc == 1 {
        EndLine(usrbuf, maxlen, stored, n, old(Unread()), rest);
        assert Unread() == rest;
        rc := n;
      } else if rc == 0 {
        NoLine(maxlen, usrbuf[..]);
      }
    }
  }

  // ----- Any mix of calls -----

  datatype Call = ReadBytes(n: nat) | ReadLine(maxlen: nat)

  /** How many bytes a call takes from a stream. */
  function Takes(stream: seq<Byte>, c: Call): (k: nat)
    ensures k <= |stream|
  {
    match c
    case ReadBytes(n) => Min(n, |stream|)
    case ReadLine(maxlen) => LineLength(stream, Limit(maxlen))
  }

  /** What a series of calls delivers from a stream: it does not mention buffers or schedules. */
  function Deliveries(stream: seq<Byte>, calls: seq<Call>): seq<seq<Byte>> {
    if calls == [] then []
    else [stream[..Takes(stream, calls[0])]] + Deliveries(stream[Takes(stream, calls[0])..], calls[1..])
  }

  function Rest(stream: seq<Byte>, calls: seq<Call>): seq<Byte> {
    if calls == [] then stream else Rest(stream[Takes(stream, calls[0])..], calls[1..])
  }

  function Flatten(parts: seq<seq<Byte>>): seq<Byte> {
    if parts == [] then [] else parts[0] + Flatten(parts[1..])
  }

  lemma FlattenCons(part: seq<Byte>, parts: seq<seq<Byte>>)
    ensures Flatten([part] + parts) == part + Flatten(parts)
  {
    assert ([part] + parts)[1..] == parts;
  }

  /** Nothing is lost, repeated or reordered. */
  lemma {:induction false} DeliveriesAreTheStream(stream: seq<Byte>, calls: seq<Call>)
    ensures Flatten(Deliveries(stream, calls)) + Rest(stream, calls) == stream
  {
    if calls != [] {
      var k := Takes(stream, calls[0]);
      DeliveriesAreTheStream(stream[k..], calls[1..]);
      var first, tail, rest := stream[..k], Deliveries(stream[k..], calls[1..]), Rest(stream[k..], calls[1..]);
      assert Deliveries(stream, calls) == [first] + tail && Rest(stream, calls) == rest;
      calc {
        Flatten(Deliveries(stream, calls)) + Rest(stream, calls);
        { FlattenCons(first, tail); }
        first + Flatten(tail) + rest;
        { Associate(first, Flatten(tail), rest); }
        first + stream[k..];
        stream;
      }
    }
  }

  lemma Associate(a: seq<Byte>, b: seq<Byte>, c: seq<Byte>)
    ensures a + b + c == a + (b + c)
  {
  }

  lemma {:induction false} DeliveriesExtend(stream: seq<Byte>, calls: seq<Call>, c: Call)
    ensures Deliveries(stream, calls + [c]) ==
              Deliveries(stream, calls) + [Rest(stream, calls)[..Takes(Rest(stream, calls), c)]]
    ensures Rest(stream, calls + [c]) == Rest(stream, calls)[Takes(Rest(stream, calls), c)..]
  {
    if calls == [] {
      assert [] + [c] == [c] && [c][1..] == [];
    } else {
      assert (calls + [c])[1..] == calls[1..] + [c];
      DeliveriesExtend(stream[Takes(stream, calls[0])..], calls[1..], c);
    }
  }

  lemma LineBytes(stream: seq<Byte>, maxlen: nat, usrbuf: seq<Byte>, rc: int, rest: seq<Byte>)
    requires LineRead(stream, maxlen, usrbuf, rc, rest)
    ensures 0 <= rc <= LineLength(stream, Limit(maxlen)) + 1 && rc <= |usrbuf|
    ensures var n := if rc > 0 && usrbuf[rc - 1] != NEWLINE then rc - 1 else rc;
      n == LineLength(stream, Limit(maxlen)) && usrbuf[..n] == stream[..n] && rest == stream[n..]
  {
    var n := LineLength(stream, Limit(maxlen));
    if rc == n && n > 0 {
      assert usrbuf[..n][n - 1] == stream[..n][n - 1] == NEWLINE;
    }
  }

  method ServeBytes(rio: RioBuf, n: nat) returns (part: seq<Byte>)
    requires rio.Valid() && Failed !in rio.fd.schedule
    modifies rio, rio.fd, rio.buf
    ensures rio.Valid() && Failed !in rio.fd.schedule
    ensures part == old(rio.Unread())[..Min(n, |old(rio.Unread())|)]
    ensures rio.Unread() == old(rio.Unread())[Min(n, |old(rio.Unread())|)..]
  {
    var usrbuf := new Byte[n];
    var rc := rio.ReadNB(usrbuf, n);
    part := usrbuf[..rc];
  }

  /** The caller of rio_readlineb can tell the length of the line from the returned value and the
      last byte it points at. */
  method ServeLine(rio: RioBuf, maxlen: nat) returns (part: seq<Byte>)
    requires rio.Valid() && Failed !in rio.fd.schedule
    modifies rio, rio.fd, rio.buf
    ensures rio.Valid() && Failed !in rio.fd.schedule
    ensures part == old(rio.Unread())[..LineLength(old(rio.Unread()), Limit(maxlen))]
    ensures rio.Unread() == old(rio.Unread())[LineLength(old(rio.Unread()), Limit(maxlen))..]
  {
    ghost var stream := rio.Unread();
    var usrbuf := new Byte[if maxlen == 0 then 1 else maxlen];
    var rc := rio.ReadLineB(usrbuf, maxlen);
    ghost var got, rest := usrbuf[..], rio.Unread();
    assert LineRead(stream, maxlen, got, rc, rest);
    LineBytes(stream, maxlen, got, rc, rest);
    var n := if rc > 0 && usrbuf[rc - 1] != NEWLINE then rc - 1 else rc;
    part := usrbuf[..n];
    assert part == got[..n];
  }

  /** One call, over an error-free schedule. */
  method Serve(rio: RioBuf, c: Call) returns (part: seq<Byte>)
    requires rio.Valid() && Failed !in rio.fd.schedule
    modifies rio, rio.fd, rio.buf
    ensures rio.Valid() && Failed !in rio.fd.schedule
    ensures part == old(rio.Unread())[..Takes(old(rio.Unread()), c)]
    ensures rio.Unread() == old(rio.Unread())[Takes(old(rio.Unread()), c)..]
  {
    match c {
      case ReadBytes(n) => part := ServeBytes(rio, n);
      case ReadLine(maxlen) => part := ServeLine(rio, maxlen);
    }
  }

  /** Serves any mix of calls over an error-free schedule: every call delivers exactly what it would
      deliver from the plain byte stream, whatever the short reads, the interruptions and the size
      of the internal buffer. */
  method Session(rio: RioBuf, calls: seq<Call>) returns (delivered: seq<seq<Byte>>)
    requires rio.Valid() && Failed !in rio.fd.schedule
    modifies rio, rio.fd, rio.buf
    ensures rio.Valid()
    ensures delivered == Deliveries(old(rio.Unread()), calls)
    ensures rio.Unread() == Rest(old(rio.Unread()), calls)
    ensures Flatten(delivered) + rio.Unread() == old(rio.Unread())
  {
    ghost var stream := rio.Unread();
    delivered := [];
    for i := 0 to |calls|
      invariant rio.Valid() && Failed !in rio.fd.schedule
      invariant delivered == Deliveries(stream, calls[..i])
      invariant rio.Unread() == Rest(stream, calls[..i])
    {
      assert calls[..i + 1] == calls[..i] + [calls[i]];
      DeliveriesExtend(stream, calls[..i], calls[i]);
      var part := Serve(rio, calls[i]);
      delivered := delivered + [part];
    }
    assert calls[..|calls|] == calls;
    DeliveriesAreTheStream(stream, calls);
  }
}
