/**
 * The relay end to end, for one client: talk broadcasts the sentence lines
 * of its input into the client's buffer, which newconnection created
 * empty, and the client's worker then drains that buffer into its socket.
 *
 * While no putmsg fails, the worker writes the empty slot 0 and then the
 * broadcasts, in broadcast order, and nothing twice when the stored forms
 * of the broadcasts (their first 87 characters) are distinct and non-empty. Twenty broadcasts before
 * the worker's first poll make a put fail, and the worker then writes the
 * empty slot 0 twice and is out of order.
 */
module Relay {
  import opened Seqs
  import opened MsgBuffers
  import opened BufferTrace
  import opened Talker
  import opened Listeners

  /** The client's buffer after talk broadcast `b` into it, starting empty. */
  function AfterTalk(b: seq<string>): (t: BufferTrace.Trace)
    ensures WellFormed(t.state) && t.delivered == []
  {
    PutOpsFacts(NewState(), b);
    Run(NewState(), PutOps(b))
  }

  /** The client's worker after `rounds` rounds on that buffer. */
  function WorkerAfterTalk(b: seq<string>, writeResult: int -> int, rounds: nat): Worker
  {
    Serve(Start(AfterTalk(b).state), writeResult, rounds)
  }

  /** The worker's writes are what getmsg returned in one run of the puts followed by the worker's gets. */
  lemma WorkerSeesOneRun(b: seq<string>, writeResult: int -> int, rounds: nat)
    ensures var v := WorkerAfterTalk(b, writeResult, rounds);
      var t := Run(NewState(), PutOps(b) + GetOps(v.polls));
      && v.sent == t.delivered && Puts(PutOps(b) + GetOps(v.polls)) == b
      && t.failedPut == AfterTalk(b).failedPut
      && StopsOnFailedWrite(v, writeResult) && v.polls <= rounds && (!v.closed ==> v.polls == rounds)
  {
    var p := AfterTalk(b);
    var v := WorkerAfterTalk(b, writeResult, rounds);
    WorkerFacts(p.state, writeResult, rounds);
    RunAppend(NewState(), PutOps(b), GetOps(v.polls));
    PutOpsFacts(NewState(), b);
    GetOpsFacts(p.state, PutOps(b), v.polls);
    assert [] + Run(p.state, GetOps(v.polls)).delivered == v.sent;
  }

  /**
   * While no broadcast fails to go into the buffer, the worker writes a
   * prefix of the empty slot 0 followed by the broadcasts as the slots
   * keep them, in order, never more messages than were broadcast, and
   * nothing twice when those are distinct.
   */
  lemma RelayInOrder(b: seq<string>, writeResult: int -> int, rounds: nat)
    ensures var v := WorkerAfterTalk(b, writeResult, rounds);
      !AfterTalk(b).failedPut ==>
        && v.sent <= [""] + Stored(b)
        && |v.sent| <= |b|
        && (Distinct([""] + Stored(b)) ==> Distinct(v.sent))
  {
    var v := WorkerAfterTalk(b, writeResult, rounds);
    var ops := PutOps(b) + GetOps(v.polls);
    WorkerSeesOneRun(b, writeResult, rounds);
    DeliveredInPutOrder(ops);
    if Distinct([""] + Stored(b)) {
      DeliveredOnce(ops);
    }
  }

  /**
   * While no broadcast fails to go into the buffer, a worker whose writes
   * all succeed and that runs at least one round per broadcast writes
   * slot 0 and every broadcast but the newest, in order; the newest is the
   * one the buffer still holds back, and nothing is left readable.
   */
  lemma RelayDeliversAllButNewest(b: seq<string>, writeResult: int -> int, rounds: nat)
    requires rounds >= |b|
    requires forall k :: writeResult(k) >= 0
    ensures var v := WorkerAfterTalk(b, writeResult, rounds);
      !AfterTalk(b).failedPut ==>
        && v.sent == ([""] + Stored(b))[..|b|]
        && Aligned(v.state) && Pending(v.state) == []
        && Held(v.state) == ([""] + Stored(b))[|b|]
  {
    var p := AfterTalk(b);
    var v := WorkerAfterTalk(b, writeResult, rounds);
    if !p.failedPut {
      TalkLeavesAllPending(b);
      WorkerFacts(p.state, writeResult, rounds);
      assert !v.closed;
      GetsDrain(p.state, rounds);
      assert Pending(p.state)[..Count(p.state)] == Pending(p.state);
    }
  }

  /** While no broadcast failed, all broadcasts but the newest are readable and the newest is held. */
  lemma TalkLeavesAllPending(b: seq<string>)
    requires !AfterTalk(b).failedPut
    ensures var p := AfterTalk(b);
      && Aligned(p.state)
      && Pending(p.state) == ([""] + Stored(b))[..|b|]
      && Held(p.state) == ([""] + Stored(b))[|b|]
  {
    var p := AfterTalk(b);
    PutOpsFacts(NewState(), b);
    InOrderWhileNoPutFails(PutOps(b));
    var all := [""] + Stored(b);
    assert Pending(p.state) + [Held(p.state)] == all by {
      assert Lagged(p) == [] + Pending(p.state) + [Held(p.state)];
    }
  }

  /**
   * With the end-of-input check talk lacks, a talker that runs at least
   * as many turns as its input has lines broadcasts each sentence once,
   * so while no put fails the worker writes slot 0 and then the sentences
   * of the input, in order.
   */
  lemma RelayForwardsSentences(stream: seq<char>, talkRounds: nat, writeResult: int -> int, rounds: nat)
    requires talkRounds >= |Lines(stream)|
    ensures var b := BroadcastsUntilEnd(stream, talkRounds);
      var v := WorkerAfterTalk(b, writeResult, rounds);
      && b == Forwarded(stream)
      && (!AfterTalk(b).failedPut ==> v.sent <= [""] + Stored(Forwarded(stream)))
  {
    UntilEndForwardsEachOnce(stream, talkRounds);
    RelayInOrder(BroadcastsUntilEnd(stream, talkRounds), writeResult, rounds);
  }

  /**
   * With the end-of-input check talk lacks, an input of fewer than twenty
   * sentence lines never makes a put fail, and while no put fails a worker
   * whose writes all succeed, running a round per sentence, writes exactly
   * slot 0 and every sentence but the last, in order.
   */
  lemma RelayWritesSentences(stream: seq<char>, talkRounds: nat, writeResult: int -> int, rounds: nat)
    requires talkRounds >= |Lines(stream)|
    requires rounds >= |Forwarded(stream)|
    requires forall k :: writeResult(k) >= 0
    ensures var f := Forwarded(stream);
      var v := WorkerAfterTalk(BroadcastsUntilEnd(stream, talkRounds), writeResult, rounds);
      && (|f| < MSGBUFFERELEMENTS ==> !AfterTalk(f).failedPut)
      && (!AfterTalk(f).failedPut ==> v.sent == ([""] + Stored(f))[..|f|])
  {
    var f := Forwarded(stream);
    UntilEndForwardsEachOnce(stream, talkRounds);
    if |f| < MSGBUFFERELEMENTS {
      FillFresh(f);
    }
    RelayDeliversAllButNewest(f, writeResult, rounds);
  }

  /**
   * An input of twenty sentence lines, all broadcast before the worker
   * polls: the twentieth put fails, and a worker whose writes all succeed
   * writes, in 21 rounds, slot 0, the first nineteen sentences and then
   * slot 0 again. So it writes something twice and is no longer a prefix
   * of the broadcasts.
   */
  lemma RelayReplaysOnOverrun(stream: seq<char>, stale: string, writeResult: int -> int)
    requires |Forwarded(stream)| == MSGBUFFERELEMENTS
    requires forall k :: writeResult(k) >= 0
    ensures var b := Broadcasts(stream, stale, |Lines(stream)|);
      var v := WorkerAfterTalk(b, writeResult, MSGBUFFERELEMENTS + 1);
      && b == Forwarded(stream)
      && AfterTalk(b).failedPut
      && v.sent == [""] + Stored(b[..MSGBUFFERELEMENTS - 1]) + [""]
      && !Distinct(v.sent)
      && !(v.sent <= [""] + Stored(b))
  {
    var ls := Lines(stream);
    BroadcastsWhileInput(stream, stale, |ls|);
    assert ls[..|ls|] == ls;
    var b := Broadcasts(stream, stale, |ls|);
    var v := WorkerAfterTalk(b, writeResult, MSGBUFFERELEMENTS + 1);
    WorkerSeesOneRun(b, writeResult, MSGBUFFERELEMENTS + 1);
    assert !v.closed;
    OncePutFailsSlotsReplay(b);
    FilterKeepsSentences(ls);
    assert b[MSGBUFFERELEMENTS - 1] in b;
  }
}
