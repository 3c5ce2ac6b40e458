/**
 * The per-connection message ring buffer of msgbuffer.c: twenty fixed slots
 * of 88 bytes, an int read cursor and an int write cursor.
 *
 * Strings stand for C strings: the characters before the terminating NUL.
 * Each locked call (sem_wait ... sem_post) is one atomic step.
 *
 * The cursor arithmetic is kept exactly as written: putmsg advances the
 * write cursor with `++writeindex` before it knows whether the buffer is
 * full, and never undoes that on the full path.
 */
module MsgBuffers {

  /** Bytes in one slot: 80 characters, CR/LF and padding (msgbuffer.h). */
  const MSGELEMENTLENGTH: nat := 88
  /** Slots in one buffer (msgbuffer.h). */
  const MSGBUFFERELEMENTS: nat := 20

  /** The longest text a slot holds: one byte is left for the NUL. */
  const SLOTTEXT: nat := MSGELEMENTLENGTH - 1

  /** The C string `strncpy(dst, msg, n)` leaves in a buffer whose byte n is NUL. */
  function Prefix(msg: string, n: nat): (r: string)
    ensures r <= msg
    ensures |r| == if |msg| <= n then |msg| else n
  {
    if |msg| <= n then msg else msg[..n]
  }

  /** The contents of one buffer: both cursors and the twenty slots. */
  datatype BufState = BufState(readIndex: int, writeIndex: int, slots: seq<string>)

  /**
   * What every reachable buffer satisfies: twenty slots, each holding fewer
   * than 88 characters, a read cursor inside the array and a non-negative
   * write cursor. The write cursor is not bounded by 20: see Put.
   */
  predicate WellFormed(s: BufState)
  {
    && |s.slots| == MSGBUFFERELEMENTS
    && 0 <= s.readIndex < MSGBUFFERELEMENTS
    && 0 <= s.writeIndex
    && forall i | 0 <= i < |s.slots| :: |s.slots[i]| <= SLOTTEXT
  }

  /** newmsgbuffer: calloc'd slots (all empty strings), both cursors 0. */
  function NewState(): (s: BufState)
    ensures WellFormed(s)
    ensures s.readIndex == s.writeIndex == 0
    ensures forall i | 0 <= i < |s.slots| :: s.slots[i] == ""
  {
    BufState(0, 0, seq(MSGBUFFERELEMENTS, _ => ""))
  }

  datatype PutOutcome = PutOutcome(state: BufState, result: int)
  datatype GetOutcome = GetOutcome(state: BufState, result: int, msg: string)

  /**
   * putmsg as written: the write cursor is incremented first; the slot it
   * then names (modulo 20) is the candidate. If the candidate is the read
   * slot the call reports -1 and the incremented cursor stays; otherwise
   * the message, cut to 87 characters, goes into the candidate slot and the
   * write cursor becomes that slot.
   */
  function Put(s: BufState, msg: string): (r: PutOutcome)
    requires WellFormed(s)
    ensures WellFormed(r.state)
    ensures r.result == 0 || r.result == -1
    ensures r.result == -1 <==> (s.writeIndex + 1) % MSGBUFFERELEMENTS == s.readIndex
    ensures r.state.readIndex == s.readIndex
    ensures r.result == -1 ==> r.state.slots == s.slots && r.state.writeIndex == s.writeIndex + 1
    ensures r.result == 0 ==> r.state.writeIndex == (s.writeIndex + 1) % MSGBUFFERELEMENTS
    ensures r.result == 0 ==> r.state.slots[r.state.writeIndex] == Prefix(msg, SLOTTEXT)
    ensures r.result == 0 ==> forall i | 0 <= i < MSGBUFFERELEMENTS && i != r.state.writeIndex :: r.state.slots[i] == s.slots[i]
  {
    var incremented := s.writeIndex + 1;
    var next := incremented % MSGBUFFERELEMENTS;
    if next == s.readIndex then
      PutOutcome(s.(writeIndex := incremented), -1)
    else
      PutOutcome(s.(writeIndex := next, slots := s.slots[next := Prefix(msg, SLOTTEXT)]), 0)
  }

  /**
   * getmsg: empty (-1, nothing copied, nothing changed) exactly when the
   * cursors are equal; otherwise the read slot is copied out with at most
   * `length` characters and the read cursor moves one slot on, modulo 20.
   */
  function Get(s: BufState, length: nat): (r: GetOutcome)
    requires WellFormed(s)
    ensures WellFormed(r.state)
    ensures r.result == 0 || r.result == -1
    ensures r.result == -1 <==> s.readIndex == s.writeIndex
    ensures r.result == -1 ==> r.state == s && r.msg == ""
    ensures r.state.writeIndex == s.writeIndex && r.state.slots == s.slots
    ensures r.result == 0 ==> r.msg == Prefix(s.slots[s.readIndex], length)
    ensures r.result == 0 ==> r.state.readIndex == (s.readIndex + 1) % MSGBUFFERELEMENTS
  {
    if s.readIndex == s.writeIndex then
      GetOutcome(s, -1, "")
    else
      GetOutcome(s.(readIndex := (s.readIndex + 1) % MSGBUFFERELEMENTS), 0,
                 Prefix(s.slots[s.readIndex], length))
  }

  /**
   * putmsg as its callers evidently intend it: the candidate slot is
   * computed without moving the write cursor, so a full buffer is left
   * exactly as it was.
   */
  function PutIntended(s: BufState, msg: string): (r: PutOutcome)
    requires WellFormed(s)
    ensures WellFormed(r.state)
    ensures r.result == -1 ==> r.state == s
  {
    if (s.writeIndex + 1) % MSGBUFFERELEMENTS == s.readIndex then PutOutcome(s, -1)
    else Put(s, msg)
  }

  // ---------------------------------------------------------------------
  // The abstract queue while no put has failed.
  //
  // Because putmsg writes one slot ahead of the write cursor and getmsg
  // reads at the read cursor, the readable messages are the slots from the
  // read cursor up to but excluding the write cursor, and the slot under the
  // write cursor holds the newest message, which is not yet readable.

  /** A well-formed buffer whose write cursor is inside the array. */
  predicate Aligned(s: BufState)
  {
    WellFormed(s) && s.writeIndex < MSGBUFFERELEMENTS
  }

  /** Number of readable slots of an aligned buffer. */
  function Count(s: BufState): (n: nat)
    requires Aligned(s)
    ensures n < MSGBUFFERELEMENTS
    ensures n == 0 <==> s.readIndex == s.writeIndex
  {
    if s.readIndex <= s.writeIndex then s.writeIndex - s.readIndex
    else s.writeIndex + MSGBUFFERELEMENTS - s.readIndex
  }

  /**
   * A cursor value inside the array is its own slot number. Stated apart
   * so that proofs about whole buffers do not reason about `%` in place.
   */
  lemma SlotOf(x: int)
    requires 0 <= x < MSGBUFFERELEMENTS
    ensures x % MSGBUFFERELEMENTS == x
  {
  }

  /** The slot `i` places after slot `r`, going round the array. */
  function Ring(r: int, i: int): int
  {
    (r + i) % MSGBUFFERELEMENTS
  }

  /** The readable messages of an aligned buffer, oldest first. */
  function Pending(s: BufState): (q: seq<string>)
    requires Aligned(s)
    ensures |q| == Count(s)
  {
    seq(Count(s), i requires 0 <= i < Count(s) => s.slots[Ring(s.readIndex, i)])
  }

  /** The newest message: stored, but unreadable until the next put succeeds. */
  function Held(s: BufState): string
    requires Aligned(s)
  {
    s.slots[s.writeIndex]
  }

  /** A fresh buffer has nothing readable and holds the empty slot 0. */
  lemma NewStateIsEmpty()
    ensures Aligned(NewState()) && Pending(NewState()) == [] && Held(NewState()) == ""
    ensures Get(NewState(), MSGELEMENTLENGTH).result == -1
  {
  }

  /**
   * On an aligned buffer putmsg fails exactly when 19 messages are readable;
   * a successful put makes the held message readable (at the end of the
   * queue) and holds the new one in its place.
   */
  lemma PutAppendsHeld(s: BufState, msg: string)
    requires Aligned(s)
    ensures Put(s, msg).result == -1 <==> Count(s) == MSGBUFFERELEMENTS - 1
    ensures Put(s, msg).result == 0 ==>
      && Aligned(Put(s, msg).state)
      && Pending(Put(s, msg).state) == Pending(s) + [Held(s)]
      && Held(Put(s, msg).state) == Prefix(msg, SLOTTEXT)
  {
    var r, w := s.readIndex, s.writeIndex;
    var next := (w + 1) % MSGBUFFERELEMENTS;
    assert next == if w + 1 == MSGBUFFERELEMENTS then 0 else w + 1;
    if next != r {
      var t := Put(s, msg).state;
      assert Count(t) == Count(s) + 1;
      forall i | 0 <= i < Count(s)
        ensures Ring(r, i) != next
      {
        assert (r + i) % MSGBUFFERELEMENTS == if r + i < MSGBUFFERELEMENTS then r + i else r + i - MSGBUFFERELEMENTS;
      }
      assert Ring(r, Count(s)) == w;
      assert Pending(t) == Pending(s) + [Held(s)];
    }
  }

  /**
   * On an aligned buffer getmsg fails exactly when nothing is readable; a
   * successful get returns the oldest readable message (whole, when the
   * caller's buffer has 88 bytes or more, room for a slot and its NUL) and
   * removes it from the queue.
   */
  lemma GetTakesOldest(s: BufState, length: nat)
    requires Aligned(s)
    ensures Get(s, length).result == -1 <==> Pending(s) == []
    ensures Get(s, length).result == 0 ==>
      && Aligned(Get(s, length).state)
      && Get(s, length).msg == Prefix(Pending(s)[0], length)
      && Pending(Get(s, length).state) == Pending(s)[1..]
      && Held(Get(s, length).state) == Held(s)
    ensures Get(s, length).result == 0 && length > SLOTTEXT ==> Get(s, length).msg == Pending(s)[0]
  {
    var r := s.readIndex;
    if r != s.writeIndex {
      var t := Get(s, length).state;
      assert t.readIndex == if r + 1 == MSGBUFFERELEMENTS then 0 else r + 1;
      assert Count(t) == Count(s) - 1;
      forall i | 0 <= i < Count(t)
        ensures Ring(t.readIndex, i) == Ring(r, i + 1)
      {
      }
      assert Pending(t) == Pending(s)[1..];
    }
  }

  /**
   * A failed put wrecks the queue: the write cursor lands on the read
   * cursor, so nothing is readable and the oldest readable message becomes
   * the held one (the other eighteen, and the message held before, are
   * lost to getmsg), or, from slot 19, it runs past the array (so getmsg does not report empty again until the
   * next successful put brings the write cursor back into the array).
   */
  lemma FailedPutLosesQueue(s: BufState, msg: string)
    requires Aligned(s) && Put(s, msg).result == -1
    ensures Count(s) == MSGBUFFERELEMENTS - 1
    ensures s.writeIndex < MSGBUFFERELEMENTS - 1 ==>
      && Aligned(Put(s, msg).state) && Pending(Put(s, msg).state) == []
      && Held(Put(s, msg).state) == Pending(s)[0]
    ensures s.writeIndex == MSGBUFFERELEMENTS - 1 ==>
      Put(s, msg).state.writeIndex == MSGBUFFERELEMENTS
  {
    PutAppendsHeld(s, msg);
  }

  /**
   * While the write cursor stays at 20 or beyond (until the next successful
   * put), every getmsg succeeds: it copies
   * the read slot and moves on, so stale slots are read again and again.
   */
  lemma OverrunNeverEmpty(s: BufState, length: nat)
    requires WellFormed(s) && s.writeIndex >= MSGBUFFERELEMENTS
    ensures Get(s, length).result == 0
    ensures Get(s, length).state.writeIndex == s.writeIndex
    ensures Get(s, length).msg == Prefix(s.slots[s.readIndex], length)
  {
  }

  /**
   * The corrected put keeps the abstract queue: on a full buffer it drops
   * the new message and leaves queue and held message as they were, and
   * otherwise it behaves as putmsg does. Every state it reaches stays
   * aligned, so getmsg keeps returning messages in put order.
   */
  lemma PutIntendedDropsNewest(s: BufState, msg: string)
    requires Aligned(s)
    ensures Aligned(PutIntended(s, msg).state)
    ensures PutIntended(s, msg).result == -1 <==> Count(s) == MSGBUFFERELEMENTS - 1
    ensures PutIntended(s, msg).result == -1 ==>
      Pending(PutIntended(s, msg).state) == Pending(s) && Held(PutIntended(s, msg).state) == Held(s)
    ensures PutIntended(s, msg).result == 0 ==>
      && Pending(PutIntended(s, msg).state) == Pending(s) + [Held(s)]
      && Held(PutIntended(s, msg).state) == Prefix(msg, SLOTTEXT)
  {
    PutAppendsHeld(s, msg);
  }

  /** The msgbuffer structure; its semaphore is left out (each call is atomic). */
  class MsgBuffer {
    var readIndex: int
    var writeIndex: int
    const element: array<string>

    ghost function State(): BufState
      reads this, element
    {
      BufState(readIndex, writeIndex, element[..])
    }

    ghost predicate Valid()
      reads this, element
    {
      WellFormed(State())
    }

    /** newmsgbuffer once calloc has succeeded. */
    constructor ()
      ensures Valid() && fresh(element)
      ensures State() == NewState()
    {
      element := new string[MSGBUFFERELEMENTS](_ => "");
      readIndex := 0;
      writeIndex := 0;
      new;
      assert element[..] == NewState().slots;
    }

    /** putmsg: 0 on success, -1 when full; the full path keeps the increment. */
    method PutMsg(msg: string) returns (result: int)
      requires Valid()
      modifies this, element
      ensures Valid()
      ensures PutOutcome(State(), result) == Put(old(State()), msg)
    {
      writeIndex := writeIndex + 1;
      var next := writeIndex % MSGBUFFERELEMENTS;
      if next == readIndex {
        result := -1;
      } else {
        element[next] := Prefix(msg, SLOTTEXT);
        writeIndex := next;
        result := 0;
      }
    }

    /** getmsg into a caller buffer of `length` bytes: 0 on success, -1 when empty. */
    method GetMsg(length: nat) returns (result: int, msg: string)
      requires Valid()
      modifies this`readIndex
      ensures Valid()
      ensures GetOutcome(State(), result, msg) == Get(old(State()), length)
    {
      if readIndex == writeIndex {
        result, msg := -1, "";
      } else {
        msg := Prefix(element[readIndex], length);
        readIndex := (readIndex + 1) % MSGBUFFERELEMENTS;
        result := 0;
      }
    }
  }

  /** newmsgbuffer: `callocOk` says whether calloc succeeded; NULL otherwise. */
  method NewMsgBuffer(callocOk: bool) returns (b: MsgBuffer?)
    ensures (b != null) == callocOk
    ensures b != null ==> fresh(b) && fresh(b.element) && b.Valid() && b.State() == NewState()
  {
    if callocOk {
      b := new MsgBuffer();
    } else {
      b := null;
    }
  }
}
