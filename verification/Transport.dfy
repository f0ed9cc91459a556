/**
 Sockets and connections over a scripted kernel.  What `recv` and `send` will return is an
 arbitrary script, so a statement about every script covers every chunking of the incoming
 bytes, every pattern of partial writes, and every moment at which the peer disappears.
 */
module Transport {
  import opened ByteStrings

  // ---------- Scripts ----------

  const READ_CHUNK: nat := 4096

  type Chunk = s: string | 0 < |s| <= READ_CHUNK witness "x"

  /** One `recv(READ_CHUNK)`: some bytes, 0 (the peer has finished), or a negative result. */
  datatype Recv = Data(bytes: Chunk) | Eof | Failed

  /** The bytes that arrive before the first end or error. */
  function Delivered(incoming: seq<Recv>): string {
    if incoming == [] || !incoming[0].Data? then "" else incoming[0].bytes + Delivered(incoming[1..])
  }

  /** How the incoming stream stops; a script that runs out is an orderly end. */
  function Ending(incoming: seq<Recv>): (r: Recv)
    ensures !r.Data?
  {
    if incoming == [] then Eof
    else if incoming[0].Data? then Ending(incoming[1..])
    else incoming[0]
  }

  /** The stream cut into single bytes, then `more`. */
  function OneByOne(s: string, more: seq<Recv>): seq<Recv> {
    if s == "" then more else [Data([s[0]])] + OneByOne(s[1..], more)
  }

  lemma {:induction false} DeliveredOneByOne(s: string, more: seq<Recv>)
    ensures Delivered(OneByOne(s, more)) == s + Delivered(more)
    ensures Ending(OneByOne(s, more)) == Ending(more)
  {
    if s != "" {
      var rs := OneByOne(s, more);
      assert rs[1..] == OneByOne(s[1..], more);
      DeliveredOneByOne(s[1..], more);
      assert s == [s[0]] + s[1..];
    }
  }

  /** The stream `s` as single bytes up to `i`, one read of `s[i..k]`, single bytes again, and then `end`. */
  function OneBigRead(s: string, i: nat, k: nat, end: seq<Recv>): seq<Recv>
    requires i < k <= |s| && k - i <= READ_CHUNK
  {
    OneByOne(s[..i], [Data(s[i..k])] + OneByOne(s[k..], end))
  }

  lemma DeliveredOneBigRead(s: string, i: nat, k: nat, end: seq<Recv>)
    requires i < k <= |s| && k - i <= READ_CHUNK && Delivered(end) == ""
    ensures Delivered(OneBigRead(s, i, k, end)) == s
    ensures Ending(OneBigRead(s, i, k, end)) == Ending(end)
  {
    var tail := OneByOne(s[k..], end);
    DeliveredOneByOne(s[k..], end);
    assert ([Data(s[i..k])] + tail)[1..] == tail;
    assert Delivered([Data(s[i..k])] + tail) == s[i..k] + Delivered(tail);
    DeliveredOneByOne(s[..i], [Data(s[i..k])] + tail);
    ThreePieces(s, i, k);
  }

  lemma ThreePieces(s: string, i: nat, k: nat)
    requires i <= k <= |s|
    ensures s[..i] + (s[i..k] + (s[k..] + "")) == s
  {
  }

  /** What a `send` loop achieves: did all go out, which bytes went out, what is left of the script. */
  datatype Push = Push(ok: bool, sent: string, rest: seq<int>)

  /** A script entry is the next `send`'s result, capped by the length offered; none left means success. */
  function Pushed(sends: seq<int>, data: string): (p: Push)
    ensures p.sent <= data && (p.ok <==> p.sent == data)
    decreases |data|
  {
    if data == "" then Push(true, "", sends)
    else if sends == [] then Push(true, data, [])
    else if sends[0] <= 0 then Push(false, "", sends[1..])
    else if sends[0] >= |data| then Push(true, data, sends[1..])
    else
      var later := Pushed(sends[1..], data[sends[0]..]);
      Push(later.ok, data[..sends[0]] + later.sent, later.rest)
  }

  /** No `send` fails. */
  ghost predicate Reliable(sends: seq<int>) {
    forall i :: 0 <= i < |sends| ==> sends[i] > 0
  }

  lemma {:induction false} ReliablePush(sends: seq<int>, data: string)
    requires Reliable(sends)
    ensures Pushed(sends, data).ok && Pushed(sends, data).sent == data && Reliable(Pushed(sends, data).rest)
    decreases |data|
  {
    if data != "" && sends != [] && 0 < sends[0] < |data| {
      ReliablePush(sends[1..], data[sends[0]..]);
    }
  }

  // ---------- The kernel's side of one socket ----------

  datatype Kernel = Kernel(incoming: seq<Recv>, sends: seq<int>, written: string, closes: nat)

  /** A whole-buffer write on an open handle. */
  function AfterSend(k: Kernel, data: string): Kernel {
    k.(sends := Pushed(k.sends, data).rest, written := k.written + Pushed(k.sends, data).sent)
  }

  /** What one `send` of `data` does to an open handle, and what it returns. */
  function SendResult(k: Kernel, data: string): int {
    if k.sends == [] || k.sends[0] > |data| then |data| else k.sends[0]
  }

  function AfterOneSend(k: Kernel, data: string): Kernel {
    var n := SendResult(k, data);
    k.(sends := if k.sends == [] then [] else k.sends[1..],
       written := if n <= 0 then k.written else k.written + data[..n])
  }

  /** In the middle of a send loop: what has gone out, and that the rest will complete `AfterSend`. */
  ghost predicate Sending(start: Kernel, now: Kernel, data: string, done: nat)
    requires done <= |data|
  {
    && AfterSend(now, data[done..]) == AfterSend(start, data)
    && Pushed(now.sends, data[done..]).ok == Pushed(start.sends, data).ok
  }

  lemma StartOfSend(start: Kernel, data: string)
    ensures Sending(start, start, data, 0)
  {
    assert data[0..] == data;
  }

  lemma SendStep(start: Kernel, before: Kernel, data: string, done: nat)
    requires done < |data| && Sending(start, before, data, done)
    ensures var n := SendResult(before, data[done..]);
            var now := AfterOneSend(before, data[done..]);
            if n > 0 then done + n <= |data| && Sending(start, now, data, done + n)
            else now == AfterSend(start, data) && !Pushed(start.sends, data).ok
  {
    var n := SendResult(before, data[done..]);
    OneSend(before, data[done..]);
    if n > 0 {
      assert data[done..][n..] == data[done + n..];
    }
  }

  lemma SendDone(start: Kernel, now: Kernel, data: string)
    requires Sending(start, now, data, |data|)
    ensures now == AfterSend(start, data) && Pushed(start.sends, data).ok
  {
    assert data[|data|..] == "" && now.written + "" == now.written;
  }

  lemma OneSend(k: Kernel, data: string)
    requires data != ""
    ensures var n := SendResult(k, data);
            var next := AfterOneSend(k, data);
            if n > 0 then
              && n <= |data|
              && AfterSend(next, data[n..]) == AfterSend(k, data)
              && Pushed(next.sends, data[n..]).ok == Pushed(k.sends, data).ok
            else next == AfterSend(k, data) && !Pushed(k.sends, data).ok
  {
    var written := k.written;
    if k.sends == [] || k.sends[0] >= |data| {
      assert data[|data|..] == "" && data[..|data|] == data;
      assert (written + data) + "" == written + data;
    } else if k.sends[0] <= 0 {
      assert written + "" == written;
    } else {
      PartialSend(k, data, k.sends[0]);
    }
  }

  lemma PartialSend(k: Kernel, data: string, n: nat)
    requires k.sends != [] && 0 < k.sends[0] < |data| && n == k.sends[0]
    ensures var next := k.(sends := k.sends[1..], written := k.written + data[..n]);
            && AfterSend(next, data[n..]) == AfterSend(k, data)
            && Pushed(next.sends, data[n..]).ok == Pushed(k.sends, data).ok
  {
    var later := Pushed(k.sends[1..], data[n..]);
    assert k.written + (data[..n] + later.sent) == k.written + data[..n] + later.sent;
  }

  class Handle {
    var incoming: seq<Recv>
    var sends: seq<int>
    var written: string
    var closes: nat

    function View(): Kernel
      reads this
    {
      Kernel(incoming, sends, written, closes)
    }

    constructor (incoming: seq<Recv>, sends: seq<int>)
      ensures View() == Kernel(incoming, sends, "", 0)
    {
      this.incoming, this.sends, written, closes := incoming, sends, "", 0;
    }
  }

  /** An owner of at most one handle; `null` is `invalidHandle`. */
  class Socket {
    var fd: Handle?

    constructor (id: Handle?)
      ensures fd == id
    {
      fd := id;
    }

    /** Move construction: the handle changes owner and nothing happens to it. */
    constructor MoveFrom(other: Socket)
      modifies other
      ensures fd == old(other.fd) && other.fd == null
    {
      fd := other.fd;
      new;
      other.fd := null;
    }

    /** Move assignment: whatever this socket owned is closed first. */
    method MoveAssign(other: Socket)
      requires fd == null || fd != other.fd || this == other
      modifies this, other, if fd == null then {} else {fd}
      ensures this == other ==> fd == old(fd) && (fd != null ==> fd.View() == old(fd.View()))
      ensures this != other ==> fd == old(other.fd) && other.fd == null
      ensures this != other && old(fd) != null ==>
                old(fd).View() == old(fd.View()).(closes := old(fd.closes) + 1)
    {
      if this != other {
        Close();
        fd := other.fd;
        other.fd := null;
      }
    }

    method Send(data: string) returns (n: int)
      requires data != ""
      modifies if fd == null then {} else {fd}
      ensures fd == null ==> n < 0
      ensures fd != null ==>
                && n == SendResult(old(fd.View()), data)
                && fd.View() == AfterOneSend(old(fd.View()), data)
    {
      if fd == null {
        return -1;
      }
      if fd.sends == [] {
        n := |data|;
      } else {
        n := if fd.sends[0] < |data| then fd.sends[0] else |data|;
        fd.sends := fd.sends[1..];
      }
      if n > 0 {
        fd.written := fd.written + data[..n];
      }
      assert data[..|data|] == data;
    }

    method Receive() returns (r: Recv)
      modifies if fd == null then {} else {fd}
      ensures fd == null ==> r == Failed
      ensures fd != null ==>
                var k := old(fd.View());
                if k.incoming == [] then r == Eof && fd.View() == k
                else r == k.incoming[0] && fd.View() == k.(incoming := k.incoming[1..])
    {
      if fd == null {
        return Failed;
      }
      if fd.incoming == [] {
        return Eof;
      }
      r := fd.incoming[0];
      fd.incoming := fd.incoming[1..];
    }

    /** Closing twice is harmless: the handle is given up by the first call. */
    method Close()
      modifies this, if fd == null then {} else {fd}
      ensures fd == null
      ensures old(fd) != null ==> old(fd).View() == old(fd.View()).(closes := old(fd.closes) + 1)
    {
      var id := fd;
      fd := null;
      if id != null {
        id.closes := id.closes + 1;
      }
    }
  }

  // ---------- Connections ----------

  class Connection {
    const socket: Socket

    constructor (s: Socket)
      modifies s
      ensures fresh(socket) && socket.fd == old(s.fd) && s.fd == null
    {
      var mine := new Socket.MoveFrom(s);
      socket := mine;
    }

    constructor MoveFrom(other: Connection)
      modifies other.socket
      ensures fresh(socket) && socket.fd == old(other.socket.fd) && other.socket.fd == null
    {
      var mine := new Socket.MoveFrom(other.socket);
      socket := mine;
    }

    /** The loop over partial writes computes `Pushed`; a connection that owns nothing sends nothing. */
    method SendAll(data: string) returns (ok: bool)
      modifies if socket.fd == null then {} else {socket.fd}
      ensures socket.fd == null ==> ok == (data == "")
      ensures socket.fd != null ==>
                && ok == Pushed(old(socket.fd.sends), data).ok
                && socket.fd.View() == AfterSend(old(socket.fd.View()), data)
    {
      var totalSent := 0;
      ghost var h := socket.fd;
      ghost var start := if h == null then Kernel([], [], "", 0) else h.View();
      if h != null {
        StartOfSend(start, data);
      }
      while totalSent < |data|
        invariant 0 <= totalSent <= |data|
        invariant h == null ==> totalSent == 0
        invariant h != null ==> Sending(start, h.View(), data, totalSent)
      {
        ghost var before := if h == null then start else h.View();
        var sent := socket.Send(data[totalSent..]);
        if h != null {
          SendStep(start, before, data, totalSent);
        }
        if sent <= 0 {
          return false;
        }
        totalSent := totalSent + sent;
      }
      if h != null {
        SendDone(start, h.View(), data);
      }
      return true;
    }

    /** One `recv`; the end of the stream and an error both come back as no bytes. */
    method ReceiveAvailable() returns (bytes: string)
      modifies if socket.fd == null then {} else {socket.fd}
      ensures socket.fd == null ==> bytes == ""
      ensures socket.fd != null ==>
                var k := old(socket.fd.View());
                && bytes == (if k.incoming != [] && k.incoming[0].Data? then k.incoming[0].bytes else "")
                && socket.fd.View() == k.(incoming := if k.incoming == [] then [] else k.incoming[1..])
    {
      var received := socket.Receive();
      bytes := if received.Data? then received.bytes else "";
    }

    method Close()
      modifies socket, if socket.fd == null then {} else {socket.fd}
      ensures socket.fd == null
      ensures var h := old(socket.fd);
              h != null ==> h.View() == old(socket.fd.View()).(closes := old(socket.fd.closes) + 1)
    {
      socket.Close();
    }
  }
}
