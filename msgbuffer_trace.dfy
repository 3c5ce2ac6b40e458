/**
 * Sequences of putmsg and getmsg calls on one buffer, each call atomic.
 *
 * The theorems: while no put fails, the messages getmsg hands out are the
 * empty slot 0 followed by the put messages in put order, each once, with
 * the newest one held back; once a put fails, this is lost, and from a
 * fresh buffer twenty puts are enough for getmsg to replay stale slots.
 */
module BufferTrace {
  import opened MsgBuffers
  import opened Seqs

  datatype Op = PutOp(msg: string) | GetOp

  /** The state after a run, the messages getmsg returned, and whether some putmsg failed. */
  datatype Trace = Trace(state: BufState, delivered: seq<string>, failedPut: bool)

  /** One call; getmsg is given a caller buffer of one slot, as listenproc does. */
  function Step(t: Trace, op: Op): (u: Trace)
    requires WellFormed(t.state)
    ensures WellFormed(u.state)
    ensures |u.delivered| >= |t.delivered| && u.delivered[..|t.delivered|] == t.delivered
  {
    match op
    case PutOp(m) =>
      var p := Put(t.state, m);
      Trace(p.state, t.delivered, t.failedPut || p.result != 0)
    case GetOp =>
      var g := Get(t.state, MSGELEMENTLENGTH);
      Trace(g.state, t.delivered + (if g.result == 0 then [g.msg] else []), t.failedPut)
  }

  /** The calls of `ops`, in order, from state `s`. */
  function Run(s: BufState, ops: seq<Op>): (t: Trace)
    requires WellFormed(s)
    ensures WellFormed(t.state)
    ensures |t.delivered| <= |ops|
    decreases |ops|
  {
    if ops == [] then Trace(s, [], false)
    else Step(Run(s, ops[..|ops| - 1]), ops[|ops| - 1])
  }

  /** The messages handed to putmsg, in call order. */
  function Puts(ops: seq<Op>): (m: seq<string>)
    ensures |m| <= |ops|
  {
    if ops == [] then []
    else Puts(ops[..|ops| - 1]) + (match ops[|ops| - 1] case PutOp(x) => [x] case GetOp => [])
  }

  /** What a slot keeps of each message. */
  function Stored(msgs: seq<string>): (r: seq<string>)
    ensures |r| == |msgs|
    ensures forall i | 0 <= i < |msgs| :: r[i] == Prefix(msgs[i], SLOTTEXT)
  {
    seq(|msgs|, i requires 0 <= i < |msgs| => Prefix(msgs[i], SLOTTEXT))
  }

  function PutOps(msgs: seq<string>): (ops: seq<Op>)
    ensures |ops| == |msgs|
    ensures forall i | 0 <= i < |msgs| :: ops[i] == PutOp(msgs[i])
  {
    seq(|msgs|, i requires 0 <= i < |msgs| => PutOp(msgs[i]))
  }

  function GetOps(k: nat): (ops: seq<Op>)
    ensures |ops| == k
    ensures forall i | 0 <= i < k :: ops[i] == GetOp
  {
    seq(k, _ => GetOp)
  }

  /** The lagged-FIFO view of a trace: delivered, then readable, then held. */
  function Lagged(t: Trace): seq<string>
    requires Aligned(t.state)
  {
    t.delivered + Pending(t.state) + [Held(t.state)]
  }

  /** A successful put extends the lagged-FIFO view by the stored message. */
  lemma PutStepExtends(t: Trace, m: string)
    requires Aligned(t.state) && Put(t.state, m).result == 0
    ensures Aligned(Step(t, PutOp(m)).state)
    ensures Lagged(Step(t, PutOp(m))) == Lagged(t) + [Prefix(m, SLOTTEXT)]
  {
    PutAppendsHeld(t.state, m);
  }

  /** A get leaves the lagged-FIFO view as it was. */
  lemma GetStepKeeps(t: Trace)
    requires Aligned(t.state)
    ensures Aligned(Step(t, GetOp).state)
    ensures Lagged(Step(t, GetOp)) == Lagged(t)
  {
    GetTakesOldest(t.state, MSGELEMENTLENGTH);
    var g := Get(t.state, MSGELEMENTLENGTH);
    var u := Step(t, GetOp);
    if g.result == 0 {
      assert Pending(t.state) == [g.msg] + Pending(g.state);
      assert u.delivered == t.delivered + [g.msg] && u.state == g.state;
      Regroup(t.delivered, [g.msg], Pending(g.state));
    } else {
      assert u.delivered == t.delivered + [] && u.state == t.state;
    }
  }

  /**
   * The lagged-FIFO invariant: while no put has failed, what getmsg has
   * handed out, then what is readable, then the held message, is exactly
   * the empty slot 0 followed by every put message in put order.
   */
  lemma {:induction false} InOrderWhileNoPutFails(ops: seq<Op>)
    ensures var t := Run(NewState(), ops);
      !t.failedPut ==> Aligned(t.state) && Lagged(t) == [""] + Stored(Puts(ops))
    decreases |ops|
  {
    if ops == [] {
      NewStateIsEmpty();
    } else {
      var init := ops[..|ops| - 1];
      var t0 := Run(NewState(), init);
      var t := Run(NewState(), ops);
      assert t == Step(t0, ops[|ops| - 1]);
      if !t.failedPut {
        InOrderWhileNoPutFails(init);
        match ops[|ops| - 1]
        case PutOp(m) =>
          PutStepExtends(t0, m);
          assert Puts(ops) == Puts(init) + [m];
          assert Stored(Puts(ops)) == Stored(Puts(init)) + [Prefix(m, SLOTTEXT)];
        case GetOp =>
          GetStepKeeps(t0);
          assert Puts(ops) == Puts(init);
      }
    }
  }

  /**
   * While no put has failed, getmsg has handed out a prefix of the empty
   * slot 0 followed by the put messages: in put order, nothing twice, and
   * never the newest message.
   */
  lemma DeliveredInPutOrder(ops: seq<Op>)
    ensures var t := Run(NewState(), ops);
      !t.failedPut ==>
        && t.delivered <= [""] + Stored(Puts(ops))
        && |t.delivered| <= |Puts(ops)|
  {
    var t := Run(NewState(), ops);
    if !t.failedPut {
      InOrderWhileNoPutFails(ops);
      var whole := Lagged(t);
      assert whole[..|t.delivered|] == t.delivered;
    }
  }

  /**
   * From an aligned buffer, k gets hand out the first k readable messages
   * (all of them once k reaches their number), oldest first, and leave the
   * rest readable and the held message held.
   */
  lemma {:induction false} GetsDrain(s: BufState, k: nat)
    requires Aligned(s)
    ensures var t := Run(s, GetOps(k));
      && Aligned(t.state) && !t.failedPut
      && Drained(s, t, if k < Count(s) then k else Count(s))
    decreases k
  {
    if k == 0 {
      assert GetOps(0) == [];
      assert Pending(s)[..0] == [] && Pending(s)[0..] == Pending(s);
    } else {
      var m := if k - 1 < Count(s) then k - 1 else Count(s);
      var t := Run(s, GetOps(k - 1));
      GetsDrain(s, k - 1);
      assert Aligned(t.state) && !t.failedPut && Drained(s, t, m);
      RunGetOpsSnoc(s, k - 1);
      GetDrains(s, t, m);
      assert Run(s, GetOps(k)) == Step(t, GetOp);
    }
  }

  /** The first m readable messages of `s` were handed out, the others are still readable, the held one held. */
  predicate Drained(s: BufState, t: Trace, m: nat)
    requires Aligned(s) && Aligned(t.state) && m <= Count(s)
  {
    && t.delivered == Pending(s)[..m]
    && Pending(t.state) == Pending(s)[m..]
    && Held(t.state) == Held(s)
  }

  /** One more get hands out the next readable message, or nothing once all are out. */
  lemma GetDrains(s: BufState, t: Trace, m: nat)
    requires Aligned(s) && Aligned(t.state) && m <= Count(s) && Drained(s, t, m) && !t.failedPut
    ensures var u := Step(t, GetOp);
      && Aligned(u.state) && !u.failedPut
      && Drained(s, u, if m < Count(s) then m + 1 else m)
  {
    GetTakesOldest(t.state, MSGELEMENTLENGTH);
    var u := Step(t, GetOp);
    if m < Count(s) {
      var x := Pending(s)[m];
      assert Pending(t.state)[0] == x;
      assert u.delivered == Pending(s)[..m] + [x];
      assert Pending(s)[..m + 1] == Pending(s)[..m] + [x];
      assert Pending(t.state)[1..] == Pending(s)[m + 1..];
    } else {
      assert Pending(t.state) == [];
      assert u.delivered == t.delivered + [] && u.state == t.state;
    }
  }

  /** When the put messages are distinct and non-empty, nothing is delivered twice. */
  lemma DeliveredOnce(ops: seq<Op>)
    requires Distinct([""] + Stored(Puts(ops)))
    ensures var t := Run(NewState(), ops);
      !t.failedPut ==> Distinct(t.delivered)
  {
    var t := Run(NewState(), ops);
    if !t.failedPut {
      DeliveredInPutOrder(ops);
      var all := [""] + Stored(Puts(ops));
      forall i, j | 0 <= i < j < |t.delivered|
        ensures t.delivered[i] != t.delivered[j]
      {
        assert t.delivered[i] == all[i] && t.delivered[j] == all[j];
      }
    }
  }

  /** A step does not look at what was delivered before it. */
  lemma StepShift(st: BufState, d: seq<string>, f: bool, op: Op)
    requires WellFormed(st)
    ensures var u := Step(Trace(st, [], false), op);
      Step(Trace(st, d, f), op) == Trace(u.state, d + u.delivered, f || u.failedPut)
  {
  }

  /**
   * Regrouping three logs. Stated apart so that the proofs using it do not
   * reason about sequence equality in their own, larger context.
   */
  lemma Regroup(a: seq<string>, b: seq<string>, c: seq<string>)
    ensures a + b + c == a + (b + c)
  {
  }

  /** One more put after a run of puts. */
  lemma RunPutOpsSnoc(s: BufState, msgs: seq<string>, m: string)
    requires WellFormed(s)
    ensures Run(s, PutOps(msgs + [m])).state == Put(Run(s, PutOps(msgs)).state, m).state
  {
    var ops := PutOps(msgs + [m]);
    assert ops[..|msgs|] == PutOps(msgs);
    assert ops[|msgs|] == PutOp(m);
    assert Run(s, ops) == Step(Run(s, PutOps(msgs)), PutOp(m));
  }

  /** One more get after a run of gets. */
  lemma RunGetOpsSnoc(s: BufState, n: nat)
    requires WellFormed(s)
    ensures Run(s, GetOps(n + 1)) == Step(Run(s, GetOps(n)), GetOp)
  {
    var ops := GetOps(n + 1);
    assert ops[..n] == GetOps(n);
  }

  /** A run of puts hands the messages to putmsg in order, and getmsg returns nothing during it. */
  lemma {:induction false} PutOpsFacts(s: BufState, msgs: seq<string>)
    requires WellFormed(s)
    ensures Puts(PutOps(msgs)) == msgs
    ensures Run(s, PutOps(msgs)).delivered == []
    decreases |msgs|
  {
    if msgs != [] {
      var n := |msgs|;
      var ops := PutOps(msgs);
      assert ops[..n - 1] == PutOps(msgs[..n - 1]);
      assert ops[n - 1] == PutOp(msgs[n - 1]);
      PutOpsFacts(s, msgs[..n - 1]);
      assert msgs == msgs[..n - 1] + [msgs[n - 1]];
    }
  }

  /** Gets hand nothing to putmsg, so no put fails during them. */
  lemma {:induction false} GetOpsFacts(s: BufState, pre: seq<Op>, k: nat)
    requires WellFormed(s)
    ensures Puts(pre + GetOps(k)) == Puts(pre)
    ensures !Run(s, GetOps(k)).failedPut
    decreases k
  {
    if k > 0 {
      var ops := pre + GetOps(k);
      assert ops[..|ops| - 1] == pre + GetOps(k - 1);
      assert ops[|ops| - 1] == GetOp;
      GetOpsFacts(s, pre, k - 1);
      RunGetOpsSnoc(s, k - 1);
    } else {
      assert pre + GetOps(k) == pre;
      assert GetOps(k) == [];
    }
  }

  /** Running two call sequences one after the other. */
  lemma {:induction false} RunAppend(s: BufState, a: seq<Op>, b: seq<Op>)
    requires WellFormed(s)
    ensures var ta := Run(s, a); var tb := Run(ta.state, b);
      Run(s, a + b) == Trace(tb.state, ta.delivered + tb.delivered, ta.failedPut || tb.failedPut)
    decreases |b|
  {
    if b == [] {
      assert a + b == a;
    } else {
      var b0 := b[..|b| - 1];
      var op := b[|b| - 1];
      assert (a + b)[..|a + b| - 1] == a + b0;
      assert (a + b)[|a + b| - 1] == op;
      RunAppend(s, a, b0);
      var ta := Run(s, a);
      var tb0 := Run(ta.state, b0);
      var u := Step(Trace(tb0.state, [], false), op);
      StepShift(tb0.state, ta.delivered + tb0.delivered, ta.failedPut || tb0.failedPut, op);
      StepShift(tb0.state, tb0.delivered, tb0.failedPut, op);
      assert Run(ta.state, b) == Step(tb0, op);
      Regroup(ta.delivered, tb0.delivered, u.delivered);
    }
  }

  /** The slots after k successful puts into a fresh buffer. */
  function Filled(msgs: seq<string>): (slots: seq<string>)
    requires |msgs| < MSGBUFFERELEMENTS
    ensures |slots| == MSGBUFFERELEMENTS
  {
    [""] + Stored(msgs) + seq(MSGBUFFERELEMENTS - 1 - |msgs|, _ => "")
  }

  /** Slot j after the puts: empty slot 0, then the messages, then empty slots. */
  lemma FilledAt(msgs: seq<string>, j: nat)
    requires |msgs| < MSGBUFFERELEMENTS && j < MSGBUFFERELEMENTS
    ensures Filled(msgs)[j] == if 0 < j <= |msgs| then Prefix(msgs[j - 1], SLOTTEXT) else ""
  {
  }

  /** Up to 19 puts into a fresh buffer all succeed and fill slots 1, 2, ... */
  lemma {:induction false} FillFresh(msgs: seq<string>)
    requires |msgs| < MSGBUFFERELEMENTS
    ensures Run(NewState(), PutOps(msgs)) == Trace(BufState(0, |msgs|, Filled(msgs)), [], false)
    decreases |msgs|
  {
    if msgs != [] {
      var n := |msgs|;
      var init := msgs[..n - 1];
      assert PutOps(msgs)[..n - 1] == PutOps(init);
      assert PutOps(msgs)[n - 1] == PutOp(msgs[n - 1]);
      FillFresh(init);
      FillNext(msgs);
    }
  }

  /** The next put into a buffer filled from slot 1 on lands in the next slot. */
  lemma FillNext(msgs: seq<string>)
    requires 0 < |msgs| < MSGBUFFERELEMENTS
    ensures var n := |msgs|;
      Put(BufState(0, n - 1, Filled(msgs[..n - 1])), msgs[n - 1]) == PutOutcome(BufState(0, n, Filled(msgs)), 0)
  {
    var n := |msgs|;
    var init := msgs[..n - 1];
    var s := BufState(0, n - 1, Filled(init));
    var slots := s.slots[n := Prefix(msgs[n - 1], SLOTTEXT)];
    SlotOf(n);
    assert Put(s, msgs[n - 1]) == PutOutcome(BufState(0, n, slots), 0);
    forall j | 0 <= j < MSGBUFFERELEMENTS
      ensures slots[j] == Filled(msgs)[j]
    {
      FilledAt(init, j);
      FilledAt(msgs, j);
    }
    assert slots == Filled(msgs);
  }

  /**
   * From a fresh buffer puts 1 to 19 succeed and put 20 fails, leaving the
   * write cursor at 20, past the last slot.
   */
  lemma TwentiethPutFails(msgs: seq<string>)
    requires |msgs| == MSGBUFFERELEMENTS
    ensures !Run(NewState(), PutOps(msgs[..MSGBUFFERELEMENTS - 1])).failedPut
    ensures var t := Run(NewState(), PutOps(msgs));
      t.failedPut && t.state == BufState(0, MSGBUFFERELEMENTS, Filled(msgs[..MSGBUFFERELEMENTS - 1]))
  {
    var init := msgs[..MSGBUFFERELEMENTS - 1];
    FillFresh(init);
    assert PutOps(msgs)[..|msgs| - 1] == PutOps(init);
  }

  /**
   * Put 21 then succeeds into slot 1, overwriting the first message while
   * it is still unread (the read cursor has not moved).
   */
  lemma TwentyFirstPutOverwrites(msgs: seq<string>)
    requires |msgs| == MSGBUFFERELEMENTS + 1
    ensures var t := Run(NewState(), PutOps(msgs));
      && Run(NewState(), PutOps(msgs[..MSGBUFFERELEMENTS])).state.slots[1] == Prefix(msgs[0], SLOTTEXT)
      && t.state.readIndex == 0 && t.state.writeIndex == 1
      && t.state.slots[1] == Prefix(msgs[MSGBUFFERELEMENTS], SLOTTEXT)
  {
    var twenty := msgs[..MSGBUFFERELEMENTS];
    TwentiethPutFails(twenty);
    assert twenty[..MSGBUFFERELEMENTS - 1] == msgs[..MSGBUFFERELEMENTS - 1];
    assert PutOps(msgs)[..|msgs| - 1] == PutOps(twenty);
  }

  /** The slots from slot r onwards, k of them, going round the array. */
  function Rotation(slots: seq<string>, r: int, k: nat): (q: seq<string>)
    requires |slots| == MSGBUFFERELEMENTS
    ensures |q| == k
  {
    if k == 0 then [] else Rotation(slots, r, k - 1) + [slots[Ring(r, k - 1)]]
  }

  lemma {:induction false} RotationAt(slots: seq<string>, r: int, k: nat, i: nat)
    requires |slots| == MSGBUFFERELEMENTS && i < k
    ensures Rotation(slots, r, k)[i] == slots[Ring(r, i)]
    decreases k
  {
    if i < k - 1 {
      RotationAt(slots, r, k - 1, i);
    }
  }

  lemma RingNext(r: int, k: int)
    ensures Ring(Ring(r, k), 1) == Ring(r, k + 1)
  {
    var q := (r + k) / MSGBUFFERELEMENTS;
    assert r + k == MSGBUFFERELEMENTS * q + Ring(r, k);
    assert r + k + 1 == MSGBUFFERELEMENTS * q + (Ring(r, k) + 1);
  }

  /**
   * With the write cursor at 20 or beyond, k calls to getmsg all succeed
   * and return the slots from the read cursor onwards, going round the
   * array: every slot is handed out again every twenty calls.
   */
  lemma {:induction false} OverrunReplays(s: BufState, k: nat)
    requires WellFormed(s) && s.writeIndex >= MSGBUFFERELEMENTS
    ensures var t := Run(s, GetOps(k));
      && t.state == s.(readIndex := Ring(s.readIndex, k))
      && t.delivered == Rotation(s.slots, s.readIndex, k)
      && !t.failedPut
    decreases k
  {
    if k > 0 {
      assert GetOps(k)[..k - 1] == GetOps(k - 1);
      OverrunReplays(s, k - 1);
      var t0 := Run(s, GetOps(k - 1));
      assert Run(s, GetOps(k)) == Step(t0, GetOp);
      OverrunNeverEmpty(t0.state, MSGELEMENTLENGTH);
      RingNext(s.readIndex, k - 1);
    }
  }

  /** Any number of gets after twenty puts into a fresh buffer. */
  lemma GetsAfterTwentyPuts(msgs: seq<string>, k: nat)
    requires |msgs| == MSGBUFFERELEMENTS
    ensures var t := Run(NewState(), PutOps(msgs) + GetOps(k));
      t.failedPut && t.delivered == Rotation(Filled(msgs[..MSGBUFFERELEMENTS - 1]), 0, k)
  {
    TwentiethPutFails(msgs);
    var s := BufState(0, MSGBUFFERELEMENTS, Filled(msgs[..MSGBUFFERELEMENTS - 1]));
    var ta := Run(NewState(), PutOps(msgs));
    assert ta.state == s && ta.failedPut;
    RunAppend(NewState(), PutOps(msgs), GetOps(k));
    OverrunReplays(s, k);
    var tb := Run(s, GetOps(k));
    assert ta.delivered == [] by {
      FillFresh(msgs[..MSGBUFFERELEMENTS - 1]);
      assert PutOps(msgs)[..|msgs| - 1] == PutOps(msgs[..MSGBUFFERELEMENTS - 1]);
    }
    assert Run(NewState(), PutOps(msgs) + GetOps(k)) == Trace(tb.state, ta.delivered + tb.delivered, true);
  }

  /** Going round twenty slots from slot 0, the 21st is slot 0 again. */
  lemma RotationFromZero(slots: seq<string>, k: nat)
    requires |slots| == MSGBUFFERELEMENTS && k <= MSGBUFFERELEMENTS + 1
    ensures Rotation(slots, 0, k) == (slots + [slots[0]])[..k]
  {
    var q := Rotation(slots, 0, k);
    forall i | 0 <= i < k
      ensures q[i] == (slots + [slots[0]])[i]
    {
      RotationAt(slots, 0, k, i);
      assert Ring(0, i) == if i < MSGBUFFERELEMENTS then i else 0;
    }
  }

  /** The deliveries of 21 gets after twenty puts into a fresh buffer. */
  lemma ReplayAfterTwentyPuts(msgs: seq<string>)
    requires |msgs| == MSGBUFFERELEMENTS
    ensures var t := Run(NewState(), PutOps(msgs) + GetOps(MSGBUFFERELEMENTS + 1));
      t.failedPut && t.delivered == [""] + Stored(msgs[..MSGBUFFERELEMENTS - 1]) + [""]
  {
    var slots := Filled(msgs[..MSGBUFFERELEMENTS - 1]);
    GetsAfterTwentyPuts(msgs, MSGBUFFERELEMENTS + 1);
    RotationFromZero(slots, MSGBUFFERELEMENTS + 1);
    assert slots == [""] + Stored(msgs[..MSGBUFFERELEMENTS - 1]);
    assert (slots + [slots[0]])[..MSGBUFFERELEMENTS + 1] == slots + [""];
  }

  /**
   * Once a put has failed the lagged-FIFO guarantee is gone: after twenty
   * puts into a fresh buffer (the last one failing), 21 calls to getmsg all
   * succeed and hand out the empty slot 0 twice; the deliveries are then no
   * prefix of the put order as soon as the twentieth message is non-empty.
   */
  lemma OncePutFailsSlotsReplay(msgs: seq<string>)
    requires |msgs| == MSGBUFFERELEMENTS
    ensures var t := Run(NewState(), PutOps(msgs) + GetOps(MSGBUFFERELEMENTS + 1));
      && t.failedPut
      && t.delivered == [""] + Stored(msgs[..MSGBUFFERELEMENTS - 1]) + [""]
      && !Distinct(t.delivered)
      && (msgs[MSGBUFFERELEMENTS - 1] != "" ==> !(t.delivered <= [""] + Stored(msgs)))
  {
    ReplayAfterTwentyPuts(msgs);
    var d := [""] + Stored(msgs[..MSGBUFFERELEMENTS - 1]) + [""];
    assert d[0] == d[MSGBUFFERELEMENTS];
    if msgs[MSGBUFFERELEMENTS - 1] != "" {
      assert |Prefix(msgs[MSGBUFFERELEMENTS - 1], SLOTTEXT)| > 0;
      assert ([""] + Stored(msgs))[MSGBUFFERELEMENTS] != d[MSGBUFFERELEMENTS];
    }
  }
}
