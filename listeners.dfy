/**
 * The listener side of the relay: the accept decision of the accept loop,
 * the per-client worker that drains its connection's buffer into the
 * socket, and the worker's teardown.
 *
 * Sockets are file descriptors; what the model does to them is returned
 * as a log of socket operations. The result of each `write` comes from an
 * oracle `writeResult`, indexed by how many writes the worker has made.
 * The endless loops run for a given number of rounds.
 */
module Listeners {
  import opened Wrappers
  import opened Seqs
  import opened MsgBuffers
  import opened BufferTrace
  import opened Connections

  /** The refusal sent to a client that finds the list full. */
  const TOO_MANY: string := "*** Too many connections\r\n"

  datatype SocketOp = Write(fd: int, data: string) | Close(fd: int)

  /** listenerinfo_t: the worker's connection, the shared manager and the client socket. */
  datatype ListenerInfo = ListenerInfo(conn: Connection, cmgr: ConnectionMgr, socketfd: int)

  // ---------------------------------------------------------------------
  // The accept decision.

  /**
   * One accepted socket `wsd`: a fresh connection is added to the list
   * and the worker's record names it, the manager and the socket. When
   * the list is full the connection is destroyed, the socket is sent
   * TOO_MANY and closed, and no worker is started.
   */
  method Accept(cmgr: ConnectionMgr, wsd: int) returns (li: Option<ListenerInfo>, io: seq<SocketOp>)
    requires cmgr.Valid()
    modifies cmgr
    ensures cmgr.Valid()
    ensures li.None? <==> old(cmgr.nconn) >= MAXCONNECTIONS
    ensures li.None? ==> cmgr.conns == old(cmgr.conns) && io == [Write(wsd, TOO_MANY), Close(wsd)]
    ensures li.Some? ==>
      && li.value.cmgr == cmgr && li.value.socketfd == wsd && io == []
      && cmgr.conns == [li.value.conn] + old(cmgr.conns)
      && fresh(li.value.conn) && li.value.conn.msgbuffer.State() == NewState()
  {
    var conn := NewConnection(true);
    var r := AddConnection(cmgr, conn);
    if r != 0 {
      Discard(cmgr, conn);
      return None, [Write(wsd, TOO_MANY), Close(wsd)];
    }
    return Some(ListenerInfo(conn, cmgr, wsd)), [];
  }

  /** A connection that did not join is destroyed; the list does not see it. */
  method Discard(cmgr: ConnectionMgr, conn: Connection)
    requires cmgr.Valid() && conn !in cmgr.conns
    modifies conn
    ensures cmgr.Valid() && conn.destroyed
  {
    DestroyConnection(conn);
  }

  /**
   * The accept loop, once per accepted socket in `accepted`: a worker is
   * started on each. The first socket that finds the list full is refused
   * and the loop is left: later sockets are never served. So exactly as
   * many workers start as there was room. The new connections stand in
   * front of the old list, newest first, none of them an old one. That
   * each is freshly allocated with its buffer as newmsgbuffer leaves it,
   * Accept states one socket at a time.
   */
  method MultiListen(cmgr: ConnectionMgr, accepted: seq<int>) returns (started: seq<ListenerInfo>, io: seq<SocketOp>)
    requires cmgr.Valid()
    modifies cmgr
    ensures cmgr.Valid()
    ensures var room := MAXCONNECTIONS - old(cmgr.nconn);
      && |started| == (if |accepted| <= room then |accepted| else room)
      && io == (if |accepted| <= room then [] else [Write(accepted[room], TOO_MANY), Close(accepted[room])])
    ensures forall i | 0 <= i < |started| :: started[i].cmgr == cmgr && started[i].socketfd == accepted[i]
    ensures |cmgr.conns| == |started| + |old(cmgr.conns)| && cmgr.conns[|started|..] == old(cmgr.conns)
    ensures forall i | 0 <= i < |started| :: cmgr.conns[|started| - 1 - i] == started[i].conn && started[i].conn !in old(cmgr.conns)
  {
    started := [];
    io := [];
    var i := 0;
    while i < |accepted|
      invariant i <= |accepted| && i == |started|
      invariant cmgr.Valid() && Took(cmgr.conns, old(cmgr.conns), cmgr, accepted, started)
      invariant io == []
    {
      var li;
      li, io := Accept(cmgr, accepted[i]);
      if li.None? {
        break;
      }
      TookOneMore(cmgr.conns[1..], old(cmgr.conns), cmgr, accepted, started, li.value);
      started := started + [li.value];
      i := i + 1;
    }
  }

  /**
   * The accept loop's list after it started `started` on the first
   * sockets of `accepted`: their connections, newest first, in front of
   * the list `before` it found.
   */
  ghost predicate Took(conns: seq<Connection>, before: seq<Connection>, cmgr: ConnectionMgr, accepted: seq<int>, started: seq<ListenerInfo>)
  {
    && |started| <= |accepted|
    && (forall j | 0 <= j < |started| :: started[j].cmgr == cmgr && started[j].socketfd == accepted[j])
    && |conns| == |started| + |before| && conns[|started|..] == before
    && (forall j | 0 <= j < |started| :: conns[|started| - 1 - j] == started[j].conn)
  }

  lemma TookOneMore(conns: seq<Connection>, before: seq<Connection>, cmgr: ConnectionMgr, accepted: seq<int>, started: seq<ListenerInfo>, li: ListenerInfo)
    requires Took(conns, before, cmgr, accepted, started) && |started| < |accepted|
    requires li.cmgr == cmgr && li.socketfd == accepted[|started|]
    ensures Took([li.conn] + conns, before, cmgr, accepted, started + [li])
  {
    var t := [li.conn] + conns;
    var s := started + [li];
    assert t[|s|..] == conns[|started|..];
    forall j | 0 <= j < |s|
      ensures t[|s| - 1 - j] == s[j].conn
    {
      if j < |started| {
        assert t[|s| - 1 - j] == conns[|started| - 1 - j];
      }
    }
  }

  // ---------------------------------------------------------------------
  // The worker's delivery loop, as a function of the buffer.

  /** Where a worker stands: its buffer, its getmsg calls, the messages it wrote, and whether it stopped. */
  datatype Worker = Worker(state: BufState, polls: nat, sent: seq<string>, closed: bool)

  /** Writing each of `msgs` to `fd`, in order. */
  function WritesOf(fd: int, msgs: seq<string>): (io: seq<SocketOp>)
    ensures |io| == |msgs|
    ensures forall k | 0 <= k < |msgs| :: io[k] == Write(fd, msgs[k])
  {
    seq(|msgs|, k requires 0 <= k < |msgs| => Write(fd, msgs[k]))
  }

  lemma WritesOfSnoc(fd: int, msgs: seq<string>, m: string)
    ensures WritesOf(fd, msgs + [m]) == WritesOf(fd, msgs) + [Write(fd, m)]
  {
  }

  /**
   * One round: getmsg into a buffer of MSGELEMENTLENGTH bytes. Nothing is
   * written when it reports empty; otherwise the message is written, and
   * only a negative byte count (not a short or empty write) stops the worker.
   */
  function Poll(w: Worker, writeResult: int -> int): (v: Worker)
    requires WellFormed(w.state)
    ensures WellFormed(v.state)
  {
    var g := Get(w.state, MSGELEMENTLENGTH);
    if g.result != 0 then w.(polls := w.polls + 1)
    else Worker(g.state, w.polls + 1, w.sent + [g.msg], writeResult(|w.sent|) < 0)
  }

  /** A worker that has not polled yet, on buffer state `s`. */
  function Start(s: BufState): Worker
  {
    Worker(s, 0, [], false)
  }

  /** The worker `w` after at most `rounds` more rounds: it stops for good once a write fails. */
  function Serve(w: Worker, writeResult: int -> int, rounds: nat): (v: Worker)
    requires WellFormed(w.state)
    ensures WellFormed(v.state)
    decreases rounds
  {
    if rounds == 0 || w.closed then w else Serve(Poll(w, writeResult), writeResult, rounds - 1)
  }

  /** The workers of the next `n` rounds from `w`, each the round after the one before. */
  function History(w: Worker, writeResult: int -> int, n: nat): (ws: seq<Worker>)
    requires WellFormed(w.state)
    ensures |ws| == n + 1 && ws[0] == w && ws[n] == Serve(w, writeResult, n)
    ensures forall k | 0 <= k < n :: WellFormed(ws[k].state) && ws[k + 1] == if ws[k].closed then ws[k] else Poll(ws[k], writeResult)
    decreases n
  {
    if n == 0 then [w]
    else if w.closed then seq(n + 1, _ => w)
    else [w] + History(Poll(w, writeResult), writeResult, n - 1)
  }

  /** Once a worker has stopped, the later rounds leave it as it is. */
  lemma {:induction false} ClosedStays(w: Worker, writeResult: int -> int, n: nat, i: nat)
    requires WellFormed(w.state) && i <= n && History(w, writeResult, n)[i].closed
    ensures History(w, writeResult, n)[n] == History(w, writeResult, n)[i]
    decreases n - i
  {
    if i < n {
      ClosedStays(w, writeResult, n, i + 1);
    }
  }

  /** The worker is a reader of its buffer: it is where its getmsg calls from `s` leave it. */
  predicate Tracks(s: BufState, w: Worker)
  {
    WellFormed(s) && var t := Run(s, GetOps(w.polls)); w.state == t.state && w.sent == t.delivered
  }

  /**
   * The worker stops exactly when its last write came back negative, and
   * every earlier write succeeded, a zero-byte write included.
   */
  predicate StopsOnFailedWrite(w: Worker, writeResult: int -> int)
  {
    && (w.closed <==> |w.sent| > 0 && writeResult(|w.sent| - 1) < 0)
    && (forall k | 0 <= k < |w.sent| - 1 :: writeResult(k) >= 0)
  }

  /** A round is one more getmsg call, and writes what it returned. */
  lemma PollTracks(s: BufState, w: Worker, writeResult: int -> int)
    requires Tracks(s, w)
    ensures Tracks(s, Poll(w, writeResult))
  {
    RunGetOpsSnoc(s, w.polls);
  }

  /** A round of a running worker keeps the stopping rule. */
  lemma PollStops(w: Worker, writeResult: int -> int)
    requires WellFormed(w.state) && StopsOnFailedWrite(w, writeResult) && !w.closed
    ensures StopsOnFailedWrite(Poll(w, writeResult), writeResult)
  {
  }

  /**
   * Whatever the rounds, the worker stays a reader of its buffer that
   * stops exactly on a failed write; it polls once per round until it stops.
   */
  lemma {:induction false} ServeFacts(s: BufState, w: Worker, writeResult: int -> int, rounds: nat)
    requires Tracks(s, w) && StopsOnFailedWrite(w, writeResult)
    ensures var v := Serve(w, writeResult, rounds);
      && Tracks(s, v) && StopsOnFailedWrite(v, writeResult)
      && w.polls <= v.polls <= w.polls + rounds
      && (!v.closed ==> v.polls == w.polls + rounds)
    decreases rounds
  {
    if rounds == 0 || w.closed {
      assert Serve(w, writeResult, rounds) == w;
    } else {
      var u := Poll(w, writeResult);
      assert Serve(w, writeResult, rounds) == Serve(u, writeResult, rounds - 1);
      PollTracks(s, w, writeResult);
      PollStops(w, writeResult);
      ServeFacts(s, u, writeResult, rounds - 1);
    }
  }

  /**
   * A worker started on buffer state `s`, after `rounds` rounds: it has
   * written each message its getmsg calls returned once, in getmsg order,
   * and its buffer is where those calls leave it; it stopped exactly on a
   * failed write; it polled once per round unless it stopped.
   */
  lemma WorkerFacts(s: BufState, writeResult: int -> int, rounds: nat)
    requires WellFormed(s)
    ensures var v := Serve(Start(s), writeResult, rounds);
      var t := Run(s, GetOps(v.polls));
      && v.state == t.state && v.sent == t.delivered
      && StopsOnFailedWrite(v, writeResult)
      && v.polls <= rounds && (!v.closed ==> v.polls == rounds)
  {
    assert GetOps(0) == [];
    ServeFacts(s, Start(s), writeResult, rounds);
  }

  // ---------------------------------------------------------------------
  // The worker's methods.

  /** getmsg on the buffer of a listed connection: the other buffers of the list are left as they were. */
  method Fetch(cmgr: ConnectionMgr, conn: Connection) returns (result: int, msg: string)
    requires cmgr.Valid() && conn in cmgr.conns
    modifies conn.msgbuffer
    ensures cmgr.Valid()
    ensures GetOutcome(conn.msgbuffer.State(), result, msg) == Get(old(conn.msgbuffer.State()), MSGELEMENTLENGTH)
  {
    ghost var list := cmgr.conns;
    var b := conn.msgbuffer;
    result, msg := b.GetMsg(MSGELEMENTLENGTH);
    forall j | 0 <= j < |list| && list[j] != conn
      ensures list[j].msgbuffer.Valid()
    {
      assert SeparateBuffers(list) && Distinct(list);
      assert list[j].msgbuffer != b;
    }
  }

  /**
   * The delivery loop of listenproc over a listed connection, cut off
   * after `rounds` rounds when no write has failed: the buffer and the
   * socket log follow Serve, and the list stays as it was.
   */
  method Deliver(cmgr: ConnectionMgr, conn: Connection, fd: int, writeResult: int -> int, rounds: nat)
    returns (closed: bool, io: seq<SocketOp>)
    requires cmgr.Valid() && conn in cmgr.conns
    modifies conn.msgbuffer
    ensures cmgr.Valid()
    ensures var w := Serve(Start(old(conn.msgbuffer.State())), writeResult, rounds);
      conn.msgbuffer.State() == w.state && io == WritesOf(fd, w.sent) && closed == w.closed
  {
    ghost var s := conn.msgbuffer.State();
    ghost var ws := History(Start(s), writeResult, rounds);
    ghost var w := Start(s);
    closed := false;
    io := [];
    var i := 0;
    while i < rounds
      invariant i <= rounds && cmgr.Valid()
      invariant w == ws[i] && conn.msgbuffer.State() == w.state && !w.closed
      invariant io == WritesOf(fd, w.sent)
    {
      var result, buff := Fetch(cmgr, conn);
      ghost var sent := w.sent;
      w := Poll(w, writeResult);
      i := i + 1;
      if result != 0 {
        continue;
      }
      var byteswritten := writeResult(|io|);
      WritesOfSnoc(fd, sent, buff);
      io := io + [Write(fd, buff)];
      if byteswritten < 0 {
        ClosedStays(Start(s), writeResult, rounds, i);
        closed := true;
        break;
      }
    }
  }

  /**
   * listenproc_cleanup: the connection leaves the list before it is
   * destroyed, then the socket is closed.
   */
  method ListenProcCleanup(myli: ListenerInfo) returns (io: seq<SocketOp>)
    requires myli.cmgr.Valid()
    modifies myli.cmgr, Listed(myli.cmgr), myli.conn
    ensures myli.cmgr.Valid()
    ensures myli.cmgr.conns == Without(old(myli.cmgr.conns), myli.conn)
    ensures myli.conn !in myli.cmgr.conns && myli.conn.destroyed
    ensures io == [Close(myli.socketfd)]
  {
    ghost var list := myli.cmgr.conns;
    var r := RemoveConnection(myli.cmgr, myli.conn);
    WithoutMembers(list, myli.conn);
    DestroyConnection(myli.conn);
    io := [Close(myli.socketfd)];
  }

  /** What listenproc may change: the list, its connections and the worker's buffer. */
  ghost function ListenerFrame(li: Option<ListenerInfo>): set<object>
    reads if li.Some? then {li.value.cmgr} else {}
  {
    if li.None? then {}
    else {li.value.cmgr, li.value.conn, li.value.conn.msgbuffer} + set c | c in li.value.cmgr.conns
  }

  /**
   * listenproc: with a NULL argument, or when its own copy of the
   * arguments cannot be allocated (`callocOk` false), it returns at once
   * and touches nothing. Otherwise it delivers for `rounds` rounds; if a
   * write failed it has left the list, destroyed the connection and
   * closed the socket (`done`), else it is still delivering and the list
   * is as it was.
   */
  method ListenProc(li: Option<ListenerInfo>, callocOk: bool, writeResult: int -> int, rounds: nat)
    returns (done: bool, io: seq<SocketOp>)
    requires li.Some? ==> li.value.cmgr.Valid() && li.value.conn in li.value.cmgr.conns
    modifies ListenerFrame(li)
    ensures li.None? || !callocOk ==> done && io == [] && unchanged(old(ListenerFrame(li)))
    ensures li.Some? && callocOk ==>
      var cmgr := li.value.cmgr;
      var conn := li.value.conn;
      var fd := li.value.socketfd;
      var w := Serve(Start(old(conn.msgbuffer.State())), writeResult, rounds);
      && cmgr.Valid()
      && done == w.closed
      && io == WritesOf(fd, w.sent) + (if w.closed then [Close(fd)] else [])
      && (w.closed ==> cmgr.conns == Without(old(cmgr.conns), conn) && conn.destroyed)
      && (!w.closed ==> cmgr.conns == old(cmgr.conns) && conn.msgbuffer.State() == w.state)
  {
    if li.None? || !callocOk {
      return true, [];
    }
    var myli := ListenerInfo(li.value.conn, li.value.cmgr, li.value.socketfd);
    var closed, sent := Deliver(myli.cmgr, myli.conn, myli.socketfd, writeResult, rounds);
    io := sent;
    done := closed;
    if closed {
      var tail := ListenProcCleanup(myli);
      io := io + tail;
    }
  }
}
