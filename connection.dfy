/**
 * The connection manager of connection.c: a singly linked list of
 * connections, each wrapping one message buffer, with a count capped at
 * MAXCONNECTIONS. Each call holds the manager's semaphore for its whole
 * length, so it is modelled as one atomic step.
 *
 * The list is the real `head`/`next` chain; a ghost sequence `conns`
 * records the nodes in link order, and `Valid()` ties the two together.
 */
module Connections {
  import opened MsgBuffers
  import opened Seqs

  /** nmead.h */
  const MAXCONNECTIONS: int := 20
  const TOO_MANY_CONNECTIONS: int := -2
  const ADDCONNECTION_ERROR: int := -1

  // ---------------------------------------------------------------------
  // Removal by identity, on plain sequences.

  /** `s` without the element `x`, the others in their order. */
  function Without<T(==)>(s: seq<T>, x: T): (r: seq<T>)
    ensures |r| <= |s|
  {
    if s == [] then []
    else (if s[0] == x then [] else [s[0]]) + Without(s[1..], x)
  }

  /** What is left is exactly every element other than `x`. */
  lemma {:induction false} WithoutMembers<T>(s: seq<T>, x: T)
    ensures forall y | y in Without(s, x) :: y in s && y != x
    ensures forall y | y in s && y != x :: y in Without(s, x)
  {
    if s != [] {
      WithoutMembers(s[1..], x);
      assert s == [s[0]] + s[1..];
    }
  }

  /** Removing an absent element changes nothing. */
  lemma {:induction false} WithoutAbsent<T>(s: seq<T>, x: T)
    requires x !in s
    ensures Without(s, x) == s
  {
    if s != [] {
      WithoutAbsent(s[1..], x);
    }
  }

  /** Removing the element at position k, found nowhere else, cuts it out. */
  lemma {:induction false} WithoutAt<T>(s: seq<T>, x: T, k: nat)
    requires k < |s| && s[k] == x
    requires forall j | 0 <= j < |s| && j != k :: s[j] != x
    ensures Without(s, x) == s[..k] + s[k + 1..]
  {
    if k == 0 {
      assert x !in s[1..];
      WithoutAbsent(s[1..], x);
    } else {
      WithoutAt(s[1..], x, k - 1);
      assert s[1..][..k - 1] == s[1..k];
      assert s[1..][k..] == s[k + 1..];
    }
  }

  /**
   * Removal is idempotent, keeps a distinct list distinct, and shortens it
   * by one exactly when the element was there.
   */
  lemma {:induction false} WithoutFacts<T>(s: seq<T>, x: T)
    requires Distinct(s)
    ensures Without(Without(s, x), x) == Without(s, x)
    ensures Distinct(Without(s, x))
    ensures |Without(s, x)| == if x in s then |s| - 1 else |s|
  {
    WithoutMembers(s, x);
    WithoutAbsent(Without(s, x), x);
    if s != [] {
      assert Distinct(s[1..]);
      WithoutMembers(s[1..], x);
      WithoutFacts(s[1..], x);
      if s[0] == x {
        assert x !in s[1..];
      } else {
        assert s[0] !in s[1..];
      }
    }
  }

  /**
   * Removal keeps the relative order of the others: whenever y comes before
   * z in the result, it came before z in the original.
   */
  lemma {:induction false} WithoutKeepsOrder<T>(s: seq<T>, x: T, i: nat, j: nat)
    requires i < j < |Without(s, x)|
    ensures exists a, b | 0 <= a < b < |s| :: s[a] == Without(s, x)[i] && s[b] == Without(s, x)[j]
  {
    var r := Without(s, x);
    var rest := Without(s[1..], x);
    if s[0] == x {
      assert r == rest;
      WithoutKeepsOrder(s[1..], x, i, j);
      var a, b :| 0 <= a < b < |s[1..]| && s[1..][a] == rest[i] && s[1..][b] == rest[j];
      assert s[a + 1] == r[i] && s[b + 1] == r[j];
    } else if i == 0 {
      assert r == [s[0]] + rest;
      var y := rest[j - 1];
      assert y == r[j] && y in rest;
      WithoutMembers(s[1..], x);
      assert y in s[1..];
      var b :| 0 <= b < |s[1..]| && s[1..][b] == y;
      assert s[0] == r[i] && s[b + 1] == r[j];
    } else {
      assert r == [s[0]] + rest;
      WithoutKeepsOrder(s[1..], x, i - 1, j - 1);
      var a, b :| 0 <= a < b < |s[1..]| && s[1..][a] == rest[i - 1] && s[1..][b] == rest[j - 1];
      assert s[a + 1] == r[i] && s[b + 1] == r[j];
    }
  }

  // ---------------------------------------------------------------------
  // Heap objects.

  /**
   * connection_t: a message buffer and the link to the next connection.
   * `destroyed` records that destroyconnection has freed it.
   */
  class Connection {
    const msgbuffer: MsgBuffer
    var next: Connection?
    ghost var destroyed: bool

    constructor (b: MsgBuffer)
      ensures msgbuffer == b && next == null && !destroyed
    {
      msgbuffer := b;
      next := null;
      destroyed := false;
    }
  }

  /**
   * destroyconnection: frees the connection and its buffer; neither may be
   * used afterwards.
   */
  method DestroyConnection(conn: Connection)
    modifies conn
    ensures conn.destroyed && conn.next == old(conn.next)
  {
    conn.destroyed := true;
  }

  /**
   * newconnection: `callocOk` says whether both allocations (the connection
   * and its buffer) succeed; NULL otherwise. The calloc'd link is NULL.
   */
  method NewConnection(callocOk: bool) returns (c: Connection?)
    ensures (c != null) == callocOk
    ensures c != null ==>
      && fresh(c) && fresh(c.msgbuffer) && fresh(c.msgbuffer.element)
      && c.next == null && !c.destroyed && c.msgbuffer.Valid() && c.msgbuffer.State() == NewState()
  {
    var b := NewMsgBuffer(callocOk);
    if b == null {
      return null;
    }
    c := new Connection(b);
  }

  /** No two connections share a buffer or a buffer's storage. */
  predicate SeparateBuffers(s: seq<Connection>)
  {
    forall i, j | 0 <= i < j < |s| ::
      s[i].msgbuffer != s[j].msgbuffer && s[i].msgbuffer.element != s[j].msgbuffer.element
  }

  /** Cutting one connection out of a list keeps it distinct and its buffers separate. */
  lemma CutKeepsSeparate(s: seq<Connection>, k: nat)
    requires k < |s| && Distinct(s) && SeparateBuffers(s)
    ensures Distinct(s[..k] + s[k + 1..]) && SeparateBuffers(s[..k] + s[k + 1..])
  {
    var t := s[..k] + s[k + 1..];
    forall i | 0 <= i < |t|
      ensures t[i] == s[if i < k then i else i + 1]
    {
    }
  }

  /** connectionmgr_t without its semaphore and the unused `nextqnum`. */
  class ConnectionMgr {
    var head: Connection?
    var nconn: int
    /** The connections reachable from `head`, in link order. */
    ghost var conns: seq<Connection>

    ghost function Buffers(): set<object>
      reads this
    {
      (set c | c in conns :: c.msgbuffer) + (set c | c in conns :: c.msgbuffer.element)
    }

    /** The states of the listed buffers, head to tail. */
    ghost function States(): (ss: seq<BufState>)
      reads this, Buffers()
      ensures |ss| == |conns|
      ensures forall i | 0 <= i < |conns| :: ss[i] == conns[i].msgbuffer.State()
    {
      seq(|conns|, i reads this, Buffers() requires 0 <= i < |conns| => conns[i].msgbuffer.State())
    }

    /**
     * The count is the list's length and at most MAXCONNECTIONS; `head`
     * and the `next` links spell out `conns`, which ends in NULL (so the
     * list is acyclic); the connections are distinct, and so are their
     * buffers; each buffer is valid.
     */
    ghost predicate Valid()
      reads this, conns, Buffers()
    {
      Linked() && BuffersValid()
    }

    /** The list part of `Valid()`: it reads no buffer. */
    ghost predicate Linked()
      reads this, conns
    {
      && nconn == |conns| <= MAXCONNECTIONS
      && head == (if conns == [] then null else conns[0])
      && (forall i | 0 <= i < |conns| - 1 :: conns[i].next == conns[i + 1])
      && (conns != [] ==> conns[|conns| - 1].next == null)
      && Distinct(conns)
      && SeparateBuffers(conns)
      && (forall i | 0 <= i < |conns| :: !conns[i].destroyed)
    }

    /** The buffer part of `Valid()`. */
    ghost predicate BuffersValid()
      reads this, Buffers()
    {
      forall i | 0 <= i < |conns| :: conns[i].msgbuffer.Valid()
    }

    /** newconnectionmgr once calloc has succeeded: an empty list, count 0. */
    constructor ()
      ensures Valid() && conns == [] && head == null && nconn == 0
    {
      head := null;
      nconn := 0;
      conns := [];
    }

    /** A connection may join: it is new to the list and owns a buffer of its own. */
    ghost predicate CanJoin(c: Connection)
      reads this, c, c.msgbuffer, c.msgbuffer.element
    {
      && c !in conns && !c.destroyed
      && c.msgbuffer !in Buffers() && c.msgbuffer.element !in Buffers()
      && c.msgbuffer.Valid()
    }
  }

  /** newconnectionmgr: `callocOk` says whether calloc succeeds; NULL otherwise. */
  method NewConnectionMgr(callocOk: bool) returns (m: ConnectionMgr?)
    ensures (m != null) == callocOk
    ensures m != null ==> fresh(m) && m.Valid() && m.conns == [] && m.head == null && m.nconn == 0
  {
    if !callocOk {
      return null;
    }
    m := new ConnectionMgr();
  }

  /**
   * Adding a connection that was not listed and removing it again gives
   * back the list as it was, and removing it twice is the same as once.
   */
  lemma AddThenRemove(list: seq<Connection>, c: Connection)
    requires c !in list
    ensures Without([c] + list, c) == list
    ensures Without(Without([c] + list, c), c) == list
  {
    assert ([c] + list)[1..] == list;
    WithoutAbsent(list, c);
  }

  /** The node reached from `c` after k links (NULL once the list ends). */
  ghost function WalkFrom(c: Connection?, k: nat): Connection?
    reads *
    decreases k
  {
    if k == 0 || c == null then c else WalkFrom(c.next, k - 1)
  }

  /**
   * Following `next` from `head` visits the listed connections in order and
   * reaches NULL after exactly `nconn` links: the list is acyclic.
   */
  lemma {:induction false} WalkVisitsList(m: ConnectionMgr, k: nat)
    requires m.Valid() && k <= |m.conns|
    ensures WalkFrom(m.head, k) == if k < |m.conns| then m.conns[k] else null
    decreases k
  {
    if k > 0 {
      WalkVisitsList(m, k - 1);
      WalkSplit(m.head, k - 1);
      var prev := m.conns[k - 1];
      assert WalkFrom(prev, 1) == WalkFrom(prev.next, 0) == prev.next;
    }
  }

  lemma {:induction false} WalkSplit(c: Connection?, k: nat)
    ensures WalkFrom(c, k + 1) == WalkFrom(WalkFrom(c, k), 1)
    decreases k
  {
    if k > 0 && c != null {
      WalkSplit(c.next, k - 1);
    }
  }

  /** The connections a list operation may relink (none without a manager). */
  ghost function Listed(cmgr: ConnectionMgr?): seq<Connection>
    reads cmgr
  {
    if cmgr == null then [] else cmgr.conns
  }

  /**
   * addconnection: -1 for a NULL argument; -2 with nothing changed when the
   * count has reached MAXCONNECTIONS; otherwise the connection becomes the
   * new head in front of the old list, the count goes up by one, and 0.
   * No duplicate check is made, so the caller passes a connection not yet
   * listed (every caller passes a fresh one).
   */
  method AddConnection(cmgr: ConnectionMgr?, conn: Connection?) returns (result: int)
    requires cmgr != null ==> cmgr.Valid()
    requires cmgr != null && conn != null ==> cmgr.CanJoin(conn)
    modifies cmgr, conn
    ensures result == ADDCONNECTION_ERROR <==> cmgr == null || conn == null
    ensures cmgr != null && conn != null ==>
      (result == TOO_MANY_CONNECTIONS <==> old(cmgr.nconn) >= MAXCONNECTIONS)
    ensures result == 0 || result == ADDCONNECTION_ERROR || result == TOO_MANY_CONNECTIONS
    ensures cmgr != null ==> cmgr.Valid()
    ensures result == 0 ==>
      cmgr.conns == [conn] + old(cmgr.conns) && cmgr.head == conn && cmgr.nconn == old(cmgr.nconn) + 1
    ensures result != 0 ==>
      (cmgr != null ==> unchanged(cmgr)) && (conn != null ==> unchanged(conn))
  {
    if cmgr == null || conn == null {
      return ADDCONNECTION_ERROR;
    }
    if cmgr.nconn >= MAXCONNECTIONS {
      result := TOO_MANY_CONNECTIONS;
    } else {
      ghost var list := cmgr.conns;
      conn.next := cmgr.head;
      cmgr.head := conn;
      cmgr.nconn := cmgr.nconn + 1;
      cmgr.conns := [conn] + cmgr.conns;
      result := 0;
      forall i | 0 <= i < |list|
        ensures list[i].next == old(list[i].next) && list[i].msgbuffer.Valid()
      {
        assert list[i] != conn;
      }
      ConsValid(cmgr, list, conn);
    }
  }

  /** The list is valid again once a joining connection is linked in front of the valid list `list`. */
  lemma ConsValid(cmgr: ConnectionMgr, list: seq<Connection>, conn: Connection)
    requires |list| < MAXCONNECTIONS && Distinct(list) && SeparateBuffers(list)
    requires forall i | 0 <= i < |list| :: !list[i].destroyed && list[i].msgbuffer.Valid()
    requires forall i | 0 <= i < |list| - 1 :: list[i].next == list[i + 1]
    requires list != [] ==> list[|list| - 1].next == null
    requires conn !in list && !conn.destroyed && conn.msgbuffer.Valid()
    requires forall i | 0 <= i < |list| :: list[i].msgbuffer != conn.msgbuffer && list[i].msgbuffer.element != conn.msgbuffer.element
    requires conn.next == if list == [] then null else list[0]
    requires cmgr.conns == [conn] + list && cmgr.head == conn && cmgr.nconn == |list| + 1
    ensures cmgr.Valid()
  {
    var t := cmgr.conns;
    forall i | 1 <= i < |t|
      ensures t[i] == list[i - 1]
    {
    }
  }

  /**
   * removeconnection: -1 for a NULL argument; otherwise 0, after unlinking
   * the connection if it is listed. The other connections keep their
   * order; a connection that is not listed changes nothing.
   */
  method RemoveConnection(cmgr: ConnectionMgr?, conn: Connection?) returns (result: int)
    requires cmgr != null ==> cmgr.Valid()
    modifies cmgr, Listed(cmgr)
    ensures result == ADDCONNECTION_ERROR <==> cmgr == null || conn == null
    ensures result == 0 || result == ADDCONNECTION_ERROR
    ensures cmgr != null ==> cmgr.Valid()
    ensures cmgr != null && conn != null ==> cmgr.conns == Without<Connection>(old(cmgr.conns), conn)
    ensures cmgr != null && conn == null ==> unchanged(cmgr)
    ensures cmgr != null && (conn == null || conn !in old(cmgr.conns)) ==> unchanged(cmgr) && unchanged(old(cmgr.conns))
    ensures conn != null ==> conn.next == old(conn.next) && conn.destroyed == old(conn.destroyed)
  {
    if cmgr == null || conn == null {
      return ADDCONNECTION_ERROR;
    }
    Remove(cmgr, conn);
    result := 0;
  }

  /** removeconnection past its NULL checks. */
  method Remove(cmgr: ConnectionMgr, conn: Connection)
    requires cmgr.Valid()
    modifies cmgr, cmgr.conns
    ensures cmgr.Valid() && cmgr.conns == Without<Connection>(old(cmgr.conns), conn)
    ensures conn !in old(cmgr.conns) ==> unchanged(cmgr) && unchanged(old(cmgr.conns))
    ensures conn.next == old(conn.next) && conn.destroyed == old(conn.destroyed)
  {
    ghost var list := cmgr.conns;
    if cmgr.nconn > 0 {
      var c, c0, k := FindLink(cmgr, conn);
      if c != null {
        Unlink(cmgr, c, c0, k);
        WithoutAt<Connection>(list, conn, k);
        return;
      }
    }
    WithoutAbsent<Connection>(list, conn);
  }

  /**
   * The unlinking step of removeconnection: point the predecessor `c0` of
   * the k-th node (or `head`, when there is none) past it and decrement the
   * count. The others stay linked in their order.
   */
  method Unlink(cmgr: ConnectionMgr, c: Connection, c0: Connection?, ghost k: nat)
    requires cmgr.Valid() && k < |cmgr.conns| && c == cmgr.conns[k]
    requires c0 == if k == 0 then null else cmgr.conns[k - 1]
    modifies cmgr, c0
    ensures cmgr.Valid()
    ensures cmgr.conns == old(cmgr.conns[..k] + cmgr.conns[k + 1..])
    ensures c.next == old(c.next) && c.destroyed == old(c.destroyed)
  {
    ghost var list := cmgr.conns;
    if c == cmgr.head {
      cmgr.head := c.next;
    } else {
      c0.next := c.next;
    }
    cmgr.nconn := cmgr.nconn - 1;
    cmgr.conns := list[..k] + list[k + 1..];
    forall i | 0 <= i < |list| && i != k - 1
      ensures list[i].next == old(list[i].next)
    {
      assert list[i] != c0;
    }
    CutLinked(cmgr, list, k);
    assert forall i | 0 <= i < |list| :: list[i].msgbuffer.Valid();
    CutBuffersValid(cmgr, list, k);
  }

  /** Cutting a node out of the list leaves the other buffers as valid as they were. */
  lemma CutBuffersValid(cmgr: ConnectionMgr, list: seq<Connection>, k: nat)
    requires k < |list| && cmgr.conns == list[..k] + list[k + 1..]
    requires forall i | 0 <= i < |list| :: list[i].msgbuffer.Valid()
    ensures cmgr.BuffersValid()
  {
    var t := cmgr.conns;
    forall i | 0 <= i < |t|
      ensures t[i].msgbuffer.Valid()
    {
      assert t[i] == list[if i < k then i else i + 1];
    }
  }

  /**
   * The list part of `Valid()` once the k-th node is cut out of the
   * NULL-terminated chain `list`: its predecessor (or `head`) points where
   * it pointed, and every other link is as it was.
   */
  lemma CutLinked(cmgr: ConnectionMgr, list: seq<Connection>, k: nat)
    requires k < |list| <= MAXCONNECTIONS
    requires Distinct(list) && SeparateBuffers(list) && forall i | 0 <= i < |list| :: !list[i].destroyed
    requires forall i | 0 <= i < |list| - 1 && i != k - 1 :: list[i].next == list[i + 1]
    requires k < |list| - 1 ==> list[|list| - 1].next == null
    requires k > 0 ==> list[k - 1].next == if k + 1 < |list| then list[k + 1] else null
    requires cmgr.conns == list[..k] + list[k + 1..] && cmgr.nconn == |list| - 1
    requires cmgr.head == if k + 1 < |list| && k == 0 then list[1] else if k == 0 then null else list[0]
    ensures cmgr.Linked()
  {
    CutKeepsSeparate(list, k);
    var t := cmgr.conns;
    forall i | 0 <= i < |t|
      ensures t[i] == list[if i < k then i else i + 1] && !t[i].destroyed
    {
    }
    forall i | 0 <= i < |t| - 1
      ensures t[i].next == t[i + 1]
    {
      if i + 1 == k {
        assert t[i] == list[k - 1] && t[i + 1] == list[k + 1];
      }
    }
    if t != [] {
      assert t[0] == list[if k == 0 then 1 else 0];
      if k == |list| - 1 {
        assert t[|t| - 1] == list[k - 1] && list[k - 1].next == null;
      } else {
        assert t[|t| - 1] == list[|list| - 1];
      }
    }
    assert cmgr.nconn == |t| <= MAXCONNECTIONS;
    assert cmgr.head == if t == [] then null else t[0];
  }

  /**
   * The search loop of removeconnection: walk the list keeping the previous
   * node, stopping at `conn` or at the end. `c` is the node at position k
   * (NULL when `conn` is not listed) and `c0` the node before it.
   */
  method FindLink(cmgr: ConnectionMgr, conn: Connection) returns (c: Connection?, c0: Connection?, ghost k: nat)
    requires cmgr.Valid()
    ensures k <= |cmgr.conns|
    ensures c == (if k < |cmgr.conns| then cmgr.conns[k] else null)
    ensures c0 == (if k == 0 then null else cmgr.conns[k - 1])
    ensures c != null ==> c == conn
    ensures c == null <==> conn !in cmgr.conns
    ensures forall j | 0 <= j < |cmgr.conns| && j != k :: cmgr.conns[j] != conn
  {
    c := cmgr.head;
    c0 := null;
    k := 0;
    while c != null
      invariant 0 <= k <= |cmgr.conns|
      invariant c == if k < |cmgr.conns| then cmgr.conns[k] else null
      invariant c0 == if k == 0 then null else cmgr.conns[k - 1]
      invariant forall j | 0 <= j < k :: cmgr.conns[j] != conn
      decreases |cmgr.conns| - k
    {
      if c == conn {
        return;
      }
      c0 := c;
      c := c.next;
      k := k + 1;
    }
  }

  /** Every state in `ss` is well formed. */
  predicate AllWellFormed(ss: seq<BufState>)
  {
    forall i | 0 <= i < |ss| :: WellFormed(ss[i])
  }

  /** writetoconnections has put `buf` into the first k listed buffers, which held `ss`. */
  ghost predicate Progress(cmgr: ConnectionMgr, ss: seq<BufState>, k: nat, buf: string)
    reads cmgr, cmgr.Buffers()
  {
    && |ss| == |cmgr.conns| && k <= |ss| && AllWellFormed(ss)
    && forall i | 0 <= i < |ss| ::
      cmgr.conns[i].msgbuffer.State() == if i < k then Put(ss[i], buf).state else ss[i]
  }

  /** The body of writetoconnections' loop: putmsg on the k-th listed buffer, the others untouched. */
  method PutAt(cmgr: ConnectionMgr, c: Connection, ghost k: nat, buf: string, ghost ss: seq<BufState>)
    requires cmgr.Valid() && Progress(cmgr, ss, k, buf) && k < |ss| && c == cmgr.conns[k]
    modifies c.msgbuffer, c.msgbuffer.element
    ensures cmgr.Valid() && Progress(cmgr, ss, k + 1, buf)
  {
    ghost var list := cmgr.conns;
    var b := c.msgbuffer;
    var r := b.PutMsg(buf);
    forall i | 0 <= i < |list| && i != k
      ensures list[i].msgbuffer.Valid()
      ensures list[i].msgbuffer.State() == old(list[i].msgbuffer.State())
    {
      assert SeparateBuffers(list);
      assert list[i].msgbuffer != b && list[i].msgbuffer.element != b.element;
    }
  }

  /**
   * writetoconnections: putmsg once on every listed buffer, head to tail,
   * carrying on past the ones that report full; membership is untouched and
   * the result is always 0.
   */
  method WriteToConnections(cmgr: ConnectionMgr, buf: string) returns (result: int)
    requires cmgr.Valid()
    modifies cmgr.Buffers()
    ensures result == 0
    ensures cmgr.Valid() && unchanged(cmgr)
    ensures forall i | 0 <= i < |cmgr.conns| ::
      cmgr.conns[i].msgbuffer.State() == Put(old(cmgr.conns[i].msgbuffer.State()), buf).state
  {
    ghost var list := cmgr.conns;
    ghost var ss := cmgr.States();
    assert Progress(cmgr, ss, 0, buf);
    if cmgr.nconn > 0 {
      var c := cmgr.head;
      ghost var k := 0;
      while c != null
        invariant 0 <= k <= |list|
        invariant cmgr.conns == list
        invariant c == if k < |list| then list[k] else null
        invariant cmgr.Valid() && Progress(cmgr, ss, k, buf)
        decreases |list| - k
      {
        PutAt(cmgr, c, k, buf, ss);
        c := c.next;
        k := k + 1;
      }
    }
    result := 0;
  }
}
