/** Wrappers that hide short transfers and EINTR (cgi/wrap.c).  A descriptor
    carries the bytes still to come and a schedule saying how its next calls will
    behave; once the schedule is used up every call transfers all it can. */
module StreamWrap {
  import opened CText

  /** How one read or write call goes. */
  datatype Outcome = Interrupted | Failed | Partial(most: nat)

  /** Does a call that goes like this end a loop of calls with an error?  A write that
      takes nothing does. */
  predicate Breaks(o: Outcome, writing: bool) {
    o.Failed? || (writing && o == Partial(0))
  }

  /** What one call leaves of the schedule. */
  function AfterCall(plan: seq<Outcome>): seq<Outcome> {
    if plan == [] then [] else plan[1..]
  }

  /** Of the calls between the two schedules the last one broke exactly if `broke`, and
      none before it did. */
  ghost predicate Calls(before: seq<Outcome>, after: seq<Outcome>, writing: bool, broke: bool) {
    var used := |before| - |after|;
    && 0 <= used && after == before[used..]
    && (broke ==> used > 0 && Breaks(before[used - 1], writing))
    && forall k | 0 <= k < (if broke then used - 1 else used) :: !Breaks(before[k], writing)
  }

  lemma OneCall(plan: seq<Outcome>, writing: bool)
    ensures Calls(plan, AfterCall(plan), writing, plan != [] && Breaks(plan[0], writing))
  {
  }

  lemma MoreCalls(a: seq<Outcome>, b: seq<Outcome>, c: seq<Outcome>, writing: bool, broke: bool)
    requires Calls(a, b, writing, false) && Calls(b, c, writing, broke)
    ensures Calls(a, c, writing, broke)
  {
    var m, n := |a| - |b|, |b| - |c|;
    assert forall k | 0 <= k < n :: b[k] == a[m + k];
    forall k | m <= k < m + n
      ensures a[k] == b[k - m]
    {
    }
  }

  ghost predicate Unfailing(plan: seq<Outcome>) {
    forall k | 0 <= k < |plan| :: !plan[k].Failed?
  }

  /** A schedule in which no call fails breaks no loop of read calls. */
  lemma UnfailingCalls(before: seq<Outcome>, after: seq<Outcome>, broke: bool)
    requires Calls(before, after, false, broke)
    ensures Unfailing(before) ==> !broke
  {
  }

  /** `n` bytes have gone from the stream `rest` to index `at` of the buffer `room`. */
  ghost predicate Moved(room: string, rest: string, at: nat, n: nat, room': string, rest': string) {
    && n <= |rest| && at + n <= |room|
    && room' == room[..at] + rest[..n] + room[at + n..]
    && rest' == rest[n..]
  }

  /** A descriptor open for reading. */
  class Source {
    var unread: string
    var plan: seq<Outcome>

    constructor (unread: string, plan: seq<Outcome>)
      ensures this.unread == unread && this.plan == plan
    {
      this.unread, this.plan := unread, plan;
    }

    /** read(2): -1 with `eintr` telling EINTR from other errors, 0 at the end of
        the stream, otherwise at least one and at most `want` bytes. */
    method Read(dst: array<char>, at: nat, want: nat) returns (n: int, eintr: bool)
      requires at + want <= dst.Length && want > 0
      modifies this, dst
      ensures -1 <= n <= want
      ensures plan == AfterCall(old(plan))
      ensures n < 0 <==> old(plan) != [] && !old(plan)[0].Partial?
      ensures eintr <==> old(plan) != [] && old(plan)[0].Interrupted?
      ensures n < 0 ==> unread == old(unread) && dst[..] == old(dst[..])
      ensures n == 0 ==> old(unread) == ""
      ensures n >= 0 ==> Moved(old(dst[..]), old(unread), at, n, dst[..], unread)
    {
      var next := if plan == [] then Partial(want) else plan[0];
      plan := AfterCall(plan);
      eintr := next.Interrupted?;
      if !next.Partial? {
        return -1, eintr;
      }
      var room := Least(want, |unread|);
      n := if next.most == 0 then Least(1, room) else Least(next.most, room);
      forall k | 0 <= k < n {
        dst[at + k] := unread[k];
      }
      unread := unread[n..];
    }
  }

  /** A descriptor open for writing; a call may also accept no byte at all. */
  class Sink {
    var written: string
    var plan: seq<Outcome>

    constructor (plan: seq<Outcome>)
      ensures written == "" && this.plan == plan
    {
      written, this.plan := "", plan;
    }

    /** write(2) of `src[at..at + want]`. */
    method Write(src: array<char>, at: nat, want: nat) returns (n: int, eintr: bool)
      requires at + want <= src.Length && want > 0
      modifies this
      ensures -1 <= n <= want
      ensures plan == AfterCall(old(plan))
      ensures n < 0 <==> old(plan) != [] && !old(plan)[0].Partial?
      ensures eintr <==> old(plan) != [] && old(plan)[0].Interrupted?
      ensures n == 0 <==> old(plan) != [] && old(plan)[0] == Partial(0)
      ensures n < 0 ==> written == old(written)
      ensures n >= 0 ==> written == old(written) + src[at..at + n]
    {
      var next := if plan == [] then Partial(want) else plan[0];
      plan := AfterCall(plan);
      eintr := next.Interrupted?;
      if !next.Partial? {
        return -1, eintr;
      }
      n := Least(next.most, want);
      written := written + src[at..at + n];
    }
  }

  /** The first `k` bytes of the stream have been stored over the front of `room`
      and the rest is still to come. */
  ghost predicate Stored(stream: string, room: string, k: nat, now: string, rest: string) {
    && k <= |stream| && k <= |room|
    && now == stream[..k] + room[k..]
    && rest == stream[k..]
  }

  lemma StoreMore(stream: string, room: string, k: nat, now: string, rest: string, n: nat,
                  now': string, rest': string)
    requires Stored(stream, room, k, now, rest) && Moved(now, rest, k, n, now', rest')
    ensures Stored(stream, room, k + n, now', rest')
  {
    assert stream[..k + n] == stream[..k] + rest[..n];
  }

  /** The read call of `Readn`: the bytes it brings are stored behind the others. */
  method ReadSome(fd: Source, vptr: array<char>, ptr: nat, nleft: nat, ghost stream: string, ghost room: string)
    returns (nread: int, eintr: bool)
    requires nleft > 0 && ptr + nleft <= vptr.Length && Stored(stream, room, ptr, vptr[..], fd.unread)
    modifies fd, vptr
    ensures -1 <= nread <= nleft
    ensures Stored(stream, room, if nread < 0 then ptr else ptr + nread, vptr[..], fd.unread)
    ensures nread < 0 ==> |fd.plan| < |old(fd.plan)|
    ensures nread == 0 ==> fd.unread == ""
    ensures Calls(old(fd.plan), fd.plan, false, nread < 0 && !eintr)
  {
    ghost var now, rest := vptr[..], fd.unread;
    OneCall(fd.plan, false);
    nread, eintr := fd.Read(vptr, ptr, nleft);
    if nread >= 0 {
      StoreMore(stream, room, ptr, now, rest, nread, vptr[..], fd.unread);
    }
  }

  /** Reads exactly `n` bytes, fewer only at the end of the stream; -1 exactly if the
      last call made failed for another reason than EINTR.  The bytes taken from the
      stream are the bytes stored, in order, and nothing else is stored. */
  method Readn(fd: Source, vptr: array<char>, n: nat) returns (r: int)
    requires n <= vptr.Length
    modifies fd, vptr
    ensures -1 <= r <= n
    ensures 0 <= r < n ==> fd.unread == ""
    ensures r >= 0 ==> Stored(old(fd.unread), old(vptr[..]), r, vptr[..], fd.unread)
    ensures Calls(old(fd.plan), fd.plan, false, r < 0)
    ensures r < 0 ==> exists k: nat :: k < n && Stored(old(fd.unread), old(vptr[..]), k, vptr[..], fd.unread)
  {
    var nleft: nat, ptr: nat := n, 0;
    ghost var stream, room := fd.unread, vptr[..];
    while nleft > 0
      invariant nleft + ptr == n && Stored(stream, room, ptr, vptr[..], fd.unread)
      invariant Calls(old(fd.plan), fd.plan, false, false)
      decreases |fd.plan| + nleft, nleft
    {
      ghost var plan := fd.plan;
      var nread, eintr := ReadSome(fd, vptr, ptr, nleft, stream, room);
      MoreCalls(old(fd.plan), plan, fd.plan, false, nread < 0 && !eintr);
      if nread < 0 {
        if eintr {
          nread := 0;
        } else {
          return -1;
        }
      } else if nread == 0 {
        break;
      }
      nleft := nleft - nread;
      ptr := ptr + nread;
    }
    return n - nleft;
  }

  /** The write call of `Writen`. */
  method WriteSome(fd: Sink, vptr: array<char>, ptr: nat, nleft: nat) returns (nwritten: int, eintr: bool)
    requires nleft > 0 && ptr + nleft <= vptr.Length
    modifies fd
    ensures -1 <= nwritten <= nleft
    ensures fd.written == old(fd.written) + if nwritten < 0 then [] else vptr[ptr..ptr + nwritten]
    ensures nwritten <= 0 ==> |fd.plan| < |old(fd.plan)|
    ensures Calls(old(fd.plan), fd.plan, true, nwritten <= 0 && !(nwritten < 0 && eintr))
  {
    OneCall(fd.plan, true);
    nwritten, eintr := fd.Write(vptr, ptr, nleft);
  }

  /** Writes all `n` bytes, or fails, exactly if the last call made failed or accepted
      nothing; what has been written is then a proper prefix. */
  method Writen(fd: Sink, vptr: array<char>, n: nat) returns (r: int)
    requires n <= vptr.Length
    modifies fd
    ensures r == n || r == -1
    ensures r == n ==> fd.written == old(fd.written) + vptr[..n]
    ensures Calls(old(fd.plan), fd.plan, true, r == -1)
    ensures r == -1 ==> exists k: nat :: k < n && fd.written == old(fd.written) + vptr[..k]
  {
    var nleft: nat, ptr: nat := n, 0;
    while nleft > 0
      invariant nleft + ptr == n
      invariant fd.written == old(fd.written) + vptr[..ptr]
      invariant Calls(old(fd.plan), fd.plan, true, false)
      decreases |fd.plan| + nleft, nleft
    {
      ghost var plan := fd.plan;
      var nwritten, eintr := WriteSome(fd, vptr, ptr, nleft);
      MoreCalls(old(fd.plan), plan, fd.plan, true, nwritten <= 0 && !(nwritten < 0 && eintr));
      if nwritten <= 0 {
        if nwritten < 0 && eintr {
          nwritten := 0;
        } else {
          return -1;
        }
      }
      nleft := nleft - nwritten;
      ptr := ptr + nwritten;
    }
    return n;
  }

  // ------------------------------------------------------- lines and read-ahead

  ghost predicate Suffix(rest: string, stream: string) {
    exists k: nat :: k <= |stream| && rest == stream[k..]
  }

  function MostStored(maxlen: nat): nat {
    if maxlen == 0 then 0 else maxlen - 1
  }

  /** From `stream` the next line, at most `maxlen - 1` bytes, and a NUL have been
      stored over the front of `room`, nothing beyond was touched, and the stream
      goes on right after the line.  The count returned is the number of bytes
      stored, except on truncation: there it is one more. */
  ghost predicate GotLine(stream: string, maxlen: nat, room: string, now: string, rest: string, r: int) {
    var k := LineLength(stream, MostStored(maxlen));
    var truncated := (k == 0 || stream[k - 1] != '\n') && k == MostStored(maxlen);
    && k < |room|
    && now == stream[..k] + ['\0'] + room[k + 1..]
    && rest == stream[k..]
    && r == if truncated then k + 1 else k
  }

  /** `at` bytes of the stream stored over the front of `room`, none of the first
      `plain` a newline. */
  ghost predicate Filling(stream: string, room: string, at: nat, plain: int, now: string, rest: string) {
    && at <= |stream| && at <= |room|
    && now == stream[..at] + room[at..]
    && rest == stream[at..]
    && forall j | 0 <= j < plain && j < at :: stream[j] != '\n'
  }

  lemma FillOne(stream: string, room: string, at: nat, now: string, rest: string, c: char, rest': string)
    requires Filling(stream, room, at, at, now, rest) && at < |room|
    requires rest == [c] + rest'
    ensures Filling(stream, room, at + 1, if c == '\n' then at else at + 1, now[at := c], rest')
    ensures stream[at] == c
  {
    assert stream[at..][1..] == rest';
  }

  /** How the loop of `Readline` stops after `at` bytes with count `n`: at a
      newline, with the buffer full, or because `my_read` said `rc`. */
  ghost predicate Stopped(stream: string, at: nat, rest: string, maxlen: nat, n: nat, rc: int) {
    && at <= MostStored(maxlen) && at <= |stream|
    && (rc == 1 ==>
          || (n == at && at > 0 && stream[at - 1] == '\n')
          || (n == at + 1 && at == MostStored(maxlen) && (at == 0 || stream[at - 1] != '\n')))
    && (rc == 0 ==> n == at + 1 && n < maxlen && rest == "")
  }

  /** The loop has stopped with `at` bytes stored. */
  ghost predicate LineEnded(stream: string, room: string, at: nat, now: string, rest: string, maxlen: nat, n: nat, rc: int) {
    Filling(stream, room, at, at - 1, now, rest) && Stopped(stream, at, rest, maxlen, n, rc)
  }

  lemma EndsFull(stream: string, room: string, at: nat, now: string, rest: string, maxlen: nat, n: nat)
    requires Filling(stream, room, at, at, now, rest) && n == at + 1 && at == MostStored(maxlen)
    ensures LineEnded(stream, room, at, now, rest, maxlen, n, 1)
  {
  }

  lemma EndsEarly(stream: string, room: string, at: nat, now: string, rest: string, maxlen: nat, n: nat, rc: int)
    requires Filling(stream, room, at, at, now, rest) && n == at + 1 < maxlen
    requires rc == -1 || (rc == 0 && rest == "")
    ensures LineEnded(stream, room, at, now, rest, maxlen, n, rc)
  {
  }

  lemma EndsAtNewline(stream: string, room: string, at: nat, now: string, rest: string, maxlen: nat)
    requires Filling(stream, room, at + 1, at, now, rest) && at + 1 < maxlen && stream[at] == '\n'
    ensures LineEnded(stream, room, at + 1, now, rest, maxlen, at + 1, 1)
  {
  }

  lemma LineIsGot(stream: string, room: string, at: nat, now: string, rest: string, maxlen: nat, n: nat, rc: int)
    requires at < |room| && LineEnded(stream, room, at, now, rest, maxlen, n, rc) && (rc == 0 || rc == 1)
    ensures GotLine(stream, maxlen, room, now[at := '\0'], rest, if rc == 0 then n - 1 else n)
  {
    LineLengthIs(stream, MostStored(maxlen), at);
  }

  method StoreByte(dst: array<char>, at: nat, c: char)
    requires at < dst.Length
    modifies dst
    ensures dst[..] == old(dst[..])[at := c]
  {
    dst[at] := c;
  }

  /** A read call that is made again as long as it is interrupted. */
  method ReadAgain(fd: Source, dst: array<char>) returns (n: int)
    requires dst.Length > 0
    modifies fd, dst
    ensures -1 <= n <= dst.Length
    ensures n < 0 ==> fd.unread == old(fd.unread)
    ensures n == 0 ==> old(fd.unread) == ""
    ensures n >= 0 ==> Moved(old(dst[..]), old(fd.unread), 0, n, dst[..], fd.unread)
    ensures Calls(old(fd.plan), fd.plan, false, n < 0)
  {
    ghost var stream, room := fd.unread, dst[..];
    var eintr := true;
    n := -1;
    while eintr
      invariant -1 <= n <= dst.Length
      invariant n < 0 ==> fd.unread == stream && dst[..] == room
      invariant n >= 0 ==> !eintr && Moved(room, stream, 0, n, dst[..], fd.unread)
      invariant n == 0 ==> stream == ""
      invariant Calls(old(fd.plan), fd.plan, false, !eintr && n < 0)
      decreases |fd.plan| + if eintr then 1 else 0
    {
      ghost var plan := fd.plan;
      OneCall(plan, false);
      n, eintr := fd.Read(dst, 0, dst.Length);
      MoreCalls(old(fd.plan), plan, fd.plan, false, !eintr && n < 0);
    }
  }

  /** The static read-ahead variables of `my_read`; `ahead` is what has been taken
      from the descriptor and not handed out yet. */
  class LineReader {
    var read_cnt: int
    var read_ptr: nat
    const read_buf: array<char>
    ghost var ahead: string

    constructor (size: nat)
      requires size > 0
      ensures Valid() && ahead == "" && fresh(read_buf)
    {
      read_cnt, read_ptr, ahead := 0, 0, "";
      read_buf := new char[size](_ => '\0');
    }

    ghost predicate Valid()
      reads this, read_buf
    {
      && read_buf.Length > 0
      && (read_cnt > 0 ==> read_ptr + read_cnt <= read_buf.Length)
      && ahead == if read_cnt <= 0 then "" else read_buf[read_ptr..read_ptr + read_cnt]
    }

    /** The plain stream: the read-ahead, then what the descriptor still has. */
    ghost function Stream(fd: Source): string
      reads this, fd
    {
      ahead + fd.unread
    }

    /** The refill of `my_read`: one read call that is not interrupted. */
    method Refill(fd: Source)
      requires Valid() && read_cnt <= 0
      modifies this, read_buf, fd
      ensures Valid() && Stream(fd) == old(Stream(fd))
      ensures read_cnt == 0 ==> Stream(fd) == ""
      ensures Calls(old(fd.plan), fd.plan, false, read_cnt < 0)
    {
      ghost var stream := fd.unread;
      read_cnt := ReadAgain(fd, read_buf);
      read_ptr := 0;
      if read_cnt >= 0 {
        ahead := stream[..read_cnt];
        assert read_buf[read_ptr..read_ptr + read_cnt] == read_buf[..][..read_cnt] == ahead;
        assert stream == ahead + fd.unread;
      }
    }

    /** Takes one byte off the plain stream. */
    method MyRead(fd: Source) returns (rc: int, c: char)
      requires Valid()
      modifies this, read_buf, fd
      ensures Valid()
      ensures rc == 1 ==> old(Stream(fd)) == [c] + Stream(fd)
      ensures rc == 0 ==> old(Stream(fd)) == "" == Stream(fd)
      ensures rc == -1 ==> Stream(fd) == old(Stream(fd))
      ensures rc == 1 || rc == 0 || rc == -1
      ensures Calls(old(fd.plan), fd.plan, false, rc == -1)
    {
      c := '\0';
      if read_cnt <= 0 {
        Refill(fd);
        if read_cnt < 0 {
          return -1, c;
        } else if read_cnt == 0 {
          return 0, c;
        }
      }
      c := HandOut();
      AppendAssoc([c], ahead, fd.unread);
      rc := 1;
    }

    /** The tail of `my_read`: the first byte of the read-ahead. */
    method HandOut() returns (c: char)
      requires Valid() && read_cnt > 0
      modifies this
      ensures Valid() && old(ahead) == [c] + ahead
    {
      read_cnt := read_cnt - 1;
      c := read_buf[read_ptr];
      read_ptr := read_ptr + 1;
      assert ahead == [c] + ahead[1..];
      ahead := ahead[1..];
    }

    /** The calls made so far have brought the `at` bytes that stand in the buffer. */
    ghost predicate Begun(fd: Source, vptr: array<char>, at: nat, stream: string, room: string, plan: seq<Outcome>)
      reads this, fd, vptr
    {
      Filling(stream, room, at, at, vptr[..], Stream(fd)) && Calls(plan, fd.plan, false, false)
    }

    /** The next byte goes to the buffer. */
    method StoreNext(fd: Source, vptr: array<char>, at: nat, ghost stream: string, ghost room: string,
                     ghost plan: seq<Outcome>)
      returns (rc: int, c: char)
      requires Valid() && at < vptr.Length && vptr != read_buf
      requires Begun(fd, vptr, at, stream, room, plan)
      modifies this, read_buf, fd, vptr
      ensures Valid() && Calls(plan, fd.plan, false, rc == -1)
      ensures rc == 1 ==> Filling(stream, room, at + 1, if c == '\n' then at else at + 1, vptr[..], Stream(fd))
      ensures rc == 1 ==> stream[at] == c
      ensures rc != 1 ==> Filling(stream, room, at, at, vptr[..], Stream(fd))
      ensures rc == 0 ==> Stream(fd) == ""
      ensures rc == 1 || rc == 0 || rc == -1
    {
      rc, c := MyRead(fd);
      MoreCalls(plan, old(fd.plan), fd.plan, false, rc == -1);
      if rc == 1 {
        FillOne(stream, room, at, vptr[..], old(Stream(fd)), c, Stream(fd));
        StoreByte(vptr, at, c);
      }
    }

    /** One round of the loop of `Readline`, `more` if it goes on. */
    method Round(fd: Source, vptr: array<char>, maxlen: nat, n: nat, ghost stream: string, ghost room: string,
                 ghost plan: seq<Outcome>)
      returns (more: bool, n': nat, at: nat, rc: int)
      requires Valid() && 0 < n < maxlen <= vptr.Length && vptr != read_buf
      requires Begun(fd, vptr, n - 1, stream, room, plan)
      modifies this, read_buf, fd, vptr
      ensures Valid() && Calls(plan, fd.plan, false, rc == -1)
      ensures more ==> rc == 1 && at == n && n' == n + 1 && Begun(fd, vptr, at, stream, room, plan)
      ensures !more ==> LineEnded(stream, room, at, vptr[..], Stream(fd), maxlen, n', rc)
      ensures rc == 1 || rc == 0 || rc == -1
    {
      var c;
      n', at := n, n - 1;
      rc, c := StoreNext(fd, vptr, at, stream, room, plan);
      more := rc == 1 && c != '\n';
      if rc != 1 {
        EndsEarly(stream, room, at, vptr[..], Stream(fd), maxlen, n, rc);
      } else {
        at := at + 1;
        if more {
          n' := n + 1;
        } else {
          EndsAtNewline(stream, room, at - 1, vptr[..], Stream(fd), maxlen);
        }
      }
    }

    /** The loop of `Readline`. */
    method FillLine(fd: Source, vptr: array<char>, maxlen: nat) returns (n: nat, at: nat, rc: int)
      requires Valid() && 0 < vptr.Length && maxlen <= vptr.Length
      requires vptr != read_buf
      modifies this, read_buf, fd, vptr
      ensures Valid() && Calls(old(fd.plan), fd.plan, false, rc == -1)
      ensures LineEnded(old(Stream(fd)), old(vptr[..]), at, vptr[..], Stream(fd), maxlen, n, rc)
      ensures rc == 1 || rc == 0 || rc == -1
    {
      n, at, rc := 1, 0, 1;
      ghost var plan, stream, room := fd.plan, Stream(fd), vptr[..];
      while n < maxlen
        invariant Valid() && rc == 1 && n == at + 1 && at <= MostStored(maxlen)
        invariant Begun(fd, vptr, at, stream, room, plan)
      {
        var more;
        more, n, at, rc := Round(fd, vptr, maxlen, n, stream, room, plan);
        if !more {
          return;
        }
      }
      EndsFull(stream, room, at, vptr[..], Stream(fd), maxlen, n);
    }

    /** Reads one line; see `GotLine`. */
    method Readline(fd: Source, vptr: array<char>, maxlen: nat) returns (r: int)
      requires Valid() && 0 < vptr.Length && maxlen <= vptr.Length
      requires vptr != read_buf
      modifies this, read_buf, fd, vptr
      ensures Valid()
      ensures r >= 0 ==> GotLine(old(Stream(fd)), maxlen, old(vptr[..]), vptr[..], Stream(fd), r)
      ensures r >= 0 ==> var k := |old(Stream(fd))| - |Stream(fd)|;
        0 <= k && r == if k + 1 >= maxlen && (k == 0 || old(Stream(fd))[k - 1] != '\n') then k + 1 else k
      ensures r < 0 ==> r == -1 && Suffix(Stream(fd), old(Stream(fd)))
      ensures Calls(old(fd.plan), fd.plan, false, r < 0)
    {
      var n, at, rc := FillLine(fd, vptr, maxlen);
      if rc == -1 {
        return -1;
      }
      LineIsGot(old(Stream(fd)), old(vptr[..]), at, vptr[..], Stream(fd), maxlen, n, rc);
      r := if rc == 0 then n - 1 else n;
      StoreByte(vptr, at, '\0');
    }
  }

  // ------------------------------------------------------------- whole streams

  /** The lines that successive calls of `Readline` deliver from a stream. */
  function Lines(stream: string, most: nat): seq<string>
    requires most > 0
    decreases |stream|
  {
    if stream == "" then []
    else
      var k := LineLength(stream, most);
      [stream[..k]] + Lines(stream[k..], most)
  }

  function Glued(lines: seq<string>): string {
    if lines == [] then "" else lines[0] + Glued(lines[1..])
  }

  /** Has a newline at most as its last byte; only the last line may stop short of
      both a newline and the most bytes. */
  ghost predicate LineLike(line: string, most: nat, last: bool) {
    && 0 < |line| <= most
    && (forall j | 0 <= j < |line| - 1 :: line[j] != '\n')
    && (last || |line| == most || line[|line| - 1] == '\n')
  }

  ghost predicate AllLineLike(lines: seq<string>, most: nat) {
    forall i | 0 <= i < |lines| :: LineLike(lines[i], most, i + 1 == |lines|)
  }

  /** The first line and the lines of what is left. */
  lemma LinesStep(stream: string, most: nat)
    requires most > 0 && stream != ""
    ensures var k := LineLength(stream, most);
      && 0 < k <= |stream| && stream == stream[..k] + stream[k..]
      && Lines(stream, most) == [stream[..k]] + Lines(stream[k..], most)
      && Lines(stream, most)[0] == stream[..k] && Lines(stream, most)[1..] == Lines(stream[k..], most)
  {
  }

  /** The lines make up the stream and are as long as they may be. */
  lemma {:induction false} LinesJoin(stream: string, most: nat)
    requires most > 0
    ensures Glued(Lines(stream, most)) == stream
    ensures AllLineLike(Lines(stream, most), most)
    decreases |stream|
  {
    if stream == "" {
    } else {
      var k := LineLength(stream, most);
      LineLengthMeaning(stream, most);
      LinesJoin(stream[k..], most);
      LinesStep(stream, most);
    }
  }

  /** How many bytes a call of `Readline` has stored, by the count it returned. */
  function StoredCount(r: nat, maxlen: nat): nat
    requires maxlen > 1
  {
    if r == maxlen then r - 1 else r
  }

  /** A call that returns 0 has found the end; any other has stored the next line. */
  lemma LineTaken(stream: string, maxlen: nat, room: string, now: string, rest: string, r: nat)
    requires maxlen > 1 && GotLine(stream, maxlen, room, now, rest, r)
    ensures r == 0 <==> stream == ""
    ensures var k := StoredCount(r, maxlen);
      && k == LineLength(stream, maxlen - 1) <= |now| && k <= |stream|
      && now[..k] == stream[..k] && rest == stream[k..]
  {
  }

  lemma LinesGrow(lines: seq<string>, line: string, rest: seq<string>)
    ensures lines + ([line] + rest) == (lines + [line]) + rest
  {
  }

  /** Calls `Readline` until it finds the end of the stream or fails, and collects
      what it stores. */
  method ReadLines(reader: LineReader, fd: Source, vptr: array<char>, maxlen: nat)
    returns (lines: seq<string>, failed: bool)
    requires reader.Valid() && 1 < maxlen <= vptr.Length && vptr != reader.read_buf
    modifies reader, reader.read_buf, fd, vptr
    ensures reader.Valid()
    ensures Calls(old(fd.plan), fd.plan, false, failed)
    ensures Unfailing(old(fd.plan)) ==> !failed
    ensures !failed ==> reader.Stream(fd) == "" && lines == Lines(old(reader.Stream(fd)), maxlen - 1)
    ensures !failed ==> Glued(lines) == old(reader.Stream(fd)) && AllLineLike(lines, maxlen - 1)
  {
    lines, failed := [], false;
    ghost var all := Lines(reader.Stream(fd), maxlen - 1);
    LinesJoin(reader.Stream(fd), maxlen - 1);
    assert [] + all == all;
    var r := 1;
    while r > 0
      invariant reader.Valid() && (r <= 0 ==> reader.Stream(fd) == "")
      invariant lines + Lines(reader.Stream(fd), maxlen - 1) == all
      invariant Calls(old(fd.plan), fd.plan, false, false)
      decreases |reader.Stream(fd)|, r
    {
      ghost var plan, stream, room := fd.plan, reader.Stream(fd), vptr[..];
      r := reader.Readline(fd, vptr, maxlen);
      MoreCalls(old(fd.plan), plan, fd.plan, false, r < 0);
      if r < 0 {
        UnfailingCalls(old(fd.plan), fd.plan, true);
        return lines, true;
      }
      LineTaken(stream, maxlen, room, vptr[..], reader.Stream(fd), r);
      if r > 0 {
        LinesStep(stream, maxlen - 1);
        var line := vptr[..][..StoredCount(r, maxlen)];
        LinesGrow(lines, line, Lines(reader.Stream(fd), maxlen - 1));
        lines := lines + [line];
      }
    }
    assert lines + [] == lines;
  }
}
