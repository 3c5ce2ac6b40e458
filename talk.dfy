/**
 * The talker of talk.c: read the receiver's output line by line with
 * fgets into a 1024-byte buffer and hand every line whose first character
 * is an NMEA 0183 start delimiter ('$' or '!') to writetoconnections.
 *
 * The receiver is a character stream. fgets takes at most BUFSZ - 1
 * characters, stopping after a newline; at the end of the stream it
 * fails and leaves the buffer as it was. talk ignores that failure, so
 * the last line read is filtered (and possibly broadcast) again on every
 * later turn of its endless loop.
 */
module Talker {
  import opened Wrappers
  import opened Seqs
  import opened MsgBuffers
  import opened BufferTrace
  import opened Connections

  /** nmead.h */
  const BUFSZ: nat := 1024

  /** The first-character test of the loop: '$' or '!' starts a sentence. */
  predicate IsSentenceStart(line: string)
  {
    |line| > 0 && (line[0] == '$' || line[0] == '!')
  }

  /**
   * How many characters fgets(buf, BUFSZ, fp) takes from a non-empty
   * stream: up to and including the first newline, at most BUFSZ - 1.
   */
  function LineLength(rest: seq<char>): (n: nat)
    requires rest != []
    ensures 0 < n <= |rest| && n <= BUFSZ - 1
    ensures forall i | 0 <= i < n - 1 :: rest[i] != '\n'
    ensures n == |rest| || n == BUFSZ - 1 || rest[n - 1] == '\n'
    decreases |rest|
  {
    if rest[0] == '\n' || |rest| == 1 then 1
    else
      var m := LineLength(rest[1..]);
      if m < BUFSZ - 1 then m + 1 else BUFSZ - 1
  }

  /** The whole stream cut into the pieces successive fgets calls return. */
  function Lines(stream: seq<char>): (ls: seq<string>)
    decreases |stream|
  {
    if stream == [] then []
    else
      var n := LineLength(stream);
      [stream[..n]] + Lines(stream[n..])
  }

  function Concat(ls: seq<string>): (s: seq<char>)
  {
    if ls == [] then [] else ls[0] + Concat(ls[1..])
  }

  /** The lines that pass the first-character test, in order. */
  function Filter(ls: seq<string>): (r: seq<string>)
  {
    if ls == [] then []
    else (if IsSentenceStart(ls[0]) then [ls[0]] else []) + Filter(ls[1..])
  }

  /** Filter keeps exactly the lines of `ls` that pass the test: nothing else, none of them left behind. */
  lemma {:induction false} FilterKeepsSentences(ls: seq<string>)
    ensures forall x :: x in Filter(ls) <==> x in ls && IsSentenceStart(x)
    decreases |ls|
  {
    if ls != [] {
      FilterKeepsSentences(ls[1..]);
      assert ls == [ls[0]] + ls[1..];
    }
  }

  /**
   * One turn of the loop: fgets either takes the next line or, at the end
   * of the stream, fails and leaves the buffer `buf` as it was.
   */
  function NextBuffer(rest: seq<char>, buf: string): string
  {
    if rest == [] then buf else rest[..LineLength(rest)]
  }

  function NextRest(rest: seq<char>): seq<char>
  {
    if rest == [] then [] else rest[LineLength(rest)..]
  }

  /** What one turn broadcasts once its line is in the buffer. */
  function Emitted(line: string): (e: seq<string>)
    ensures e == [] || e == [line]
    ensures line in e <==> IsSentenceStart(line)
  {
    if IsSentenceStart(line) then [line] else []
  }

  /**
   * The lines talk hands to writetoconnections in `rounds` turns of its
   * loop, reading from `rest` with `buf` holding what the buffer held
   * before (whatever was on the stack before the first read).
   */
  function Broadcasts(rest: seq<char>, buf: string, rounds: nat): (b: seq<string>)
    decreases rounds
  {
    if rounds == 0 then []
    else
      var line := NextBuffer(rest, buf);
      Emitted(line) + Broadcasts(NextRest(rest), line, rounds - 1)
  }

  /** What talk is meant to forward: each sentence line of the input once. */
  function Forwarded(stream: seq<char>): (f: seq<string>)
  {
    Filter(Lines(stream))
  }

  /**
   * The loop with the fgets result checked: it stops at the end of the
   * stream instead of going round again with the old buffer.
   */
  function BroadcastsUntilEnd(rest: seq<char>, rounds: nat): (b: seq<string>)
    decreases rounds
  {
    if rounds == 0 || rest == [] then []
    else
      var line := rest[..LineLength(rest)];
      Emitted(line) + BroadcastsUntilEnd(NextRest(rest), rounds - 1)
  }

  // ---------------------------------------------------------------------
  // The reader.

  lemma ConcatCons(h: string, t: seq<string>)
    ensures Concat([h] + t) == h + Concat(t)
  {
    assert ([h] + t)[0] == h && ([h] + t)[1..] == t;
  }

  /** The pieces fgets returns give back the stream when put together. */
  lemma {:induction false} LinesRoundTrip(stream: seq<char>)
    ensures Concat(Lines(stream)) == stream
    decreases |stream|
  {
    if stream != [] {
      var n := LineLength(stream);
      LinesRoundTrip(stream[n..]);
      ConcatCons(stream[..n], Lines(stream[n..]));
      assert stream[..n] + stream[n..] == stream;
    }
  }

  /** A piece fgets may return: 1 to 1023 characters, no newline before its end. */
  predicate IsPiece(l: string)
  {
    0 < |l| <= BUFSZ - 1 && '\n' !in l[..|l| - 1]
  }

  /** A piece after which fgets goes on with the next: a newline ended it, or the buffer filled. */
  predicate IsFullPiece(l: string)
  {
    |l| == BUFSZ - 1 || (|l| > 0 && l[|l| - 1] == '\n')
  }

  /** Every piece is one fgets may return, and every piece but the last ends the way fgets stops. */
  lemma {:induction false} LinesShape(stream: seq<char>)
    ensures forall i | 0 <= i < |Lines(stream)| :: IsPiece(Lines(stream)[i])
    ensures forall i | 0 <= i < |Lines(stream)| - 1 :: IsFullPiece(Lines(stream)[i])
    decreases |stream|
  {
    if stream != [] {
      var n := LineLength(stream);
      var ls := Lines(stream);
      var tail := Lines(stream[n..]);
      assert ls == [stream[..n]] + tail;
      LinesShape(stream[n..]);
      assert '\n' !in stream[..n][..n - 1] by {
        assert forall j | 0 <= j < n - 1 :: stream[..n][..n - 1][j] == stream[j];
      }
      assert IsPiece(ls[0]);
      forall i | 0 <= i < |ls| - 1
        ensures IsFullPiece(ls[i])
      {
        if i == 0 {
          assert tail != [];
          assert n < |stream|;
        }
      }
    }
  }

  lemma FilterCons(h: string, t: seq<string>)
    ensures Filter([h] + t) == Emitted(h) + Filter(t)
  {
    assert ([h] + t)[0] == h && ([h] + t)[1..] == t;
  }

  lemma {:induction false} FilterAppend(a: seq<string>, b: seq<string>)
    ensures Filter(a + b) == Filter(a) + Filter(b)
    decreases |a|
  {
    if a == [] {
      assert a + b == b;
    } else {
      assert (a + b)[0] == a[0];
      assert (a + b)[1..] == a[1..] + b;
      FilterAppend(a[1..], b);
      var head := if IsSentenceStart(a[0]) then [a[0]] else [];
      assert Filter(a + b) == head + (Filter(a[1..]) + Filter(b));
      assert Filter(a) == head + Filter(a[1..]);
    }
  }

  // ---------------------------------------------------------------------
  // What the loop broadcasts.

  /** The first `m` lines of a non-empty stream are its first line and `m - 1` lines of the rest. */
  lemma FilterTake(rest: seq<char>, buf: string, m: nat)
    requires rest != [] && 0 < m <= |Lines(rest)|
    ensures |Lines(NextRest(rest))| == |Lines(rest)| - 1
    ensures Filter(Lines(rest)[..m]) == Emitted(NextBuffer(rest, buf)) + Filter(Lines(NextRest(rest))[..m - 1])
  {
    var ls := Lines(rest);
    var tail := Lines(NextRest(rest));
    assert ls == [NextBuffer(rest, buf)] + tail;
    assert ls[..m] == [NextBuffer(rest, buf)] + tail[..m - 1];
    FilterCons(NextBuffer(rest, buf), tail[..m - 1]);
  }

  /**
   * While input remains, the broadcasts are exactly the sentence lines
   * read so far, in the order read, each once.
   */
  lemma {:induction false} BroadcastsWhileInput(rest: seq<char>, buf: string, rounds: nat)
    requires rounds <= |Lines(rest)|
    ensures Broadcasts(rest, buf, rounds) == Filter(Lines(rest)[..rounds])
    decreases rounds
  {
    if rounds > 0 {
      FilterTake(rest, buf, rounds);
      BroadcastsWhileInput(NextRest(rest), NextBuffer(rest, buf), rounds - 1);
    }
  }


  /** One turn of the loop: what the next fgets leaves in the buffer is broadcast if it is a sentence. */
  lemma OneTurn(rest: seq<char>, buf: string, m: nat)
    ensures var line := NextBuffer(rest, buf);
      Broadcasts(rest, buf, m + 1) == Emitted(line) + Broadcasts(NextRest(rest), line, m)
  {
  }

  /** Where the loop stands: the unread stream, the buffer and what was broadcast so far. */
  datatype Cursor = Cursor(rest: seq<char>, buf: string, sent: seq<string>)

  /** One turn: read the next line into the buffer and broadcast it if it is a sentence. */
  function Advance(c: Cursor): (d: Cursor)
    ensures d.sent == c.sent + Emitted(d.buf)
  {
    var line := NextBuffer(c.rest, c.buf);
    Cursor(NextRest(c.rest), line, c.sent + Emitted(line))
  }

  /** The loop's position `n` turns after `c`. */
  function Turns(c: Cursor, n: nat): Cursor
    decreases n
  {
    if n == 0 then c else Turns(Advance(c), n - 1)
  }

  /** Turn by turn, the loop adds exactly Broadcasts to what it had sent. */
  lemma {:induction false} TurnsSend(c: Cursor, n: nat)
    ensures Turns(c, n).sent == c.sent + Broadcasts(c.rest, c.buf, n)
    decreases n
  {
    if n > 0 {
      var d := Advance(c);
      TurnsSend(d, n - 1);
      Regroup(c.sent, Emitted(d.buf), Broadcasts(d.rest, d.buf, n - 1));
    }
  }

  /**
   * Once the stream is exhausted, every further turn re-filters the buffer
   * that fgets left untouched: a sentence there is broadcast once per turn.
   */
  lemma {:induction false} AtEndRepeats(buf: string, k: nat)
    ensures Broadcasts([], buf, k) == if IsSentenceStart(buf) then seq(k, _ => buf) else []
    decreases k
  {
    if k > 0 {
      AtEndRepeats(buf, k - 1);
    }
  }

  /** What the buffer holds once every line of `rest` is read: the last line, or `buf` if there is none. */
  function LastRead(rest: seq<char>, buf: string): (b: string)
    ensures Lines(rest) != [] ==> b == Lines(rest)[|Lines(rest)| - 1]
  {
    var ls := Lines(rest);
    if ls == [] then buf else ls[|ls| - 1]
  }

  /** Reading one line: one piece fewer to read, the same buffer at the end of the stream. */
  lemma ReadStep(rest: seq<char>, buf: string)
    requires rest != []
    ensures LastRead(rest, buf) == LastRead(NextRest(rest), NextBuffer(rest, buf))
    ensures |Lines(rest)| == |Lines(NextRest(rest))| + 1
    ensures Filter(Lines(rest)) == Emitted(NextBuffer(rest, buf)) + Filter(Lines(NextRest(rest)))
  {
    var ls := Lines(rest);
    var tail := Lines(NextRest(rest));
    assert ls == [NextBuffer(rest, buf)] + tail;
    assert ls[1..] == tail;
    if tail != [] {
      assert ls[|ls| - 1] == tail[|tail| - 1];
    }
  }

  /**
   * After all lines are read, `k` more turns add the last line (or the
   * initial buffer, for an empty stream) k more times if it is a sentence.
   */
  lemma {:induction false} BroadcastsPastEnd(rest: seq<char>, buf: string, k: nat)
    ensures Broadcasts(rest, buf, |Lines(rest)| + k) == Filter(Lines(rest)) + Broadcasts([], LastRead(rest, buf), k)
    decreases |rest|
  {
    var after := Broadcasts([], LastRead(rest, buf), k);
    if rest == [] {
      assert Lines(rest) == [] && LastRead(rest, buf) == buf;
      assert [] + after == after;
    } else {
      var line := NextBuffer(rest, buf);
      var m := |Lines(NextRest(rest))| + k;
      var mid := Filter(Lines(NextRest(rest)));
      ReadStep(rest, buf);
      BroadcastsPastEnd(NextRest(rest), line, k);
      OneTurn(rest, buf, m);
      assert |Lines(rest)| + k == m + 1;
      Regroup(Emitted(line), mid, after);
      assert Broadcasts(rest, buf, m + 1) == Filter(Lines(rest)) + after;
    }
  }

  /** Past the end of the stream, one turn re-filters the buffer. */
  lemma AtEndOnce(buf: string)
    ensures Broadcasts([], buf, 1) == Emitted(buf)
  {
  }

  /** Filter of lines whose last one is a sentence ends with that sentence. */
  lemma FilterLastSentence(ls: seq<string>)
    requires ls != [] && IsSentenceStart(ls[|ls| - 1])
    ensures Filter(ls) == Filter(ls[..|ls| - 1]) + [ls[|ls| - 1]]
  {
    var last := ls[|ls| - 1];
    var init := ls[..|ls| - 1];
    assert ls == init + [last];
    FilterAppend(init, [last]);
    FilterCons(last, []);
    assert [last] + [] == [last];
    assert Filter([]) == [] && Emitted(last) == [last];
  }

  /**
   * As written, a stream that ends in a sentence line makes the talker
   * broadcast that line again on the turn after the end: the broadcasts
   * are no longer the sentences of the input, each once.
   */
  lemma EndOfInputRebroadcasts(stream: seq<char>, stale: string)
    requires stream != [] && IsSentenceStart(Lines(stream)[|Lines(stream)| - 1])
    ensures var ls := Lines(stream);
      Broadcasts(stream, stale, |ls| + 1) == Forwarded(stream) + [ls[|ls| - 1]]
    ensures !Distinct(Broadcasts(stream, stale, |Lines(stream)| + 1))
  {
    var ls := Lines(stream);
    var last := ls[|ls| - 1];
    PastEndRepeatsLast(stream, stale, last);
    FilterLastSentence(ls);
    TwiceNotDistinct(Filter(ls[..|ls| - 1]), last);
  }

  lemma PastEndRepeatsLast(stream: seq<char>, stale: string, last: string)
    requires Lines(stream) != [] && last == Lines(stream)[|Lines(stream)| - 1] && IsSentenceStart(last)
    ensures Broadcasts(stream, stale, |Lines(stream)| + 1) == Forwarded(stream) + [last]
  {
    BroadcastsPastEnd(stream, stale, 1);
    assert LastRead(stream, stale) == last;
    AtEndOnce(last);
    assert Emitted(last) == [last];
  }

  lemma TwiceNotDistinct(a: seq<string>, x: string)
    ensures !Distinct(a + [x] + [x])
  {
    var b := a + [x] + [x];
    assert b[|b| - 2] == b[|b| - 1];
  }

  /**
   * With the fgets result checked, any number of turns at least the number
   * of lines forwards every sentence line exactly once, in order; fewer
   * turns forward the sentences among the lines read so far.
   */
  lemma {:induction false} UntilEndForwardsEachOnce(rest: seq<char>, rounds: nat)
    ensures BroadcastsUntilEnd(rest, rounds) == Filter(Lines(rest)[..if rounds < |Lines(rest)| then rounds else |Lines(rest)|])
    ensures rounds >= |Lines(rest)| ==> BroadcastsUntilEnd(rest, rounds) == Forwarded(rest)
    decreases rounds
  {
    var ls := Lines(rest);
    if rounds > 0 && rest != [] {
      var m := if rounds < |ls| then rounds else |ls|;
      FilterTake(rest, [], m);
      UntilEndForwardsEachOnce(NextRest(rest), rounds - 1);
    }
    assert ls[..|ls|] == ls;
  }



  // ---------------------------------------------------------------------
  // The thread.

  /** talkerinfo_t: the opened receiver (NULL when absent) and the manager. */
  datatype TalkerInfo = TalkerInfo(fp: Option<seq<char>>, cmgr: ConnectionMgr)

  /** The buffers talk may write into: those of the manager's connections. */
  ghost function TalkFrame(ti: Option<TalkerInfo>): set<object>
    reads if ti.Some? then {ti.value.cmgr} else {}
  {
    if ti.Some? then ti.value.cmgr.Buffers() else {}
  }

  /**
   * talk: exits with -2 before any broadcast when the argument or its
   * stream is NULL. Otherwise it runs `rounds` turns of its endless loop
   * (None: still running) over the stream `fp`, the buffer starting out
   * as `stale`; every listed buffer has then received exactly the
   * broadcasts of Broadcasts, in order, and the list is untouched.
   */
  method Talk(ti: Option<TalkerInfo>, stale: string, rounds: nat) returns (exitCode: Option<int>)
    requires ti.Some? ==> ti.value.cmgr.Valid()
    modifies TalkFrame(ti)
    ensures exitCode == Some(-2) <==> ti.None? || ti.value.fp.None?
    ensures exitCode == None || exitCode == Some(-2)
    ensures exitCode == Some(-2) ==> unchanged(TalkFrame(ti))
    ensures exitCode == None ==>
      var cmgr := ti.value.cmgr;
      var sent := Broadcasts(ti.value.fp.value, stale, rounds);
      && cmgr.Valid() && unchanged(cmgr)
      && forall j | 0 <= j < |cmgr.conns| ::
        cmgr.conns[j].msgbuffer.State() == Run(old(cmgr.conns[j].msgbuffer.State()), PutOps(sent)).state
  {
    if ti.None? || ti.value.fp.None? {
      return Some(-2);
    }
    TalkLoop(ti.value.cmgr, ti.value.fp.value, stale, rounds);
    TurnsSend(Cursor(ti.value.fp.value, stale, []), rounds);
    assert Turns(Cursor(ti.value.fp.value, stale, []), rounds).sent == Broadcasts(ti.value.fp.value, stale, rounds);
    exitCode := None;
  }

  /** Each listed buffer, which held the matching state of `ss`, has since received the broadcasts `sent`. */
  ghost predicate Broadcasted(cmgr: ConnectionMgr, ss: seq<BufState>, sent: seq<string>)
    reads cmgr, cmgr.Buffers()
  {
    && |ss| == |cmgr.conns| && AllWellFormed(ss)
    && forall j | 0 <= j < |ss| :: cmgr.conns[j].msgbuffer.State() == Run(ss[j], PutOps(sent)).state
  }

  /** One broadcast of talk's loop: writetoconnections of the line in the buffer. */
  method Broadcast(cmgr: ConnectionMgr, line: string, ghost ss: seq<BufState>, ghost prev: seq<string>)
    requires cmgr.Valid() && Broadcasted(cmgr, ss, prev)
    modifies cmgr.Buffers()
    ensures cmgr.Valid() && unchanged(cmgr) && Broadcasted(cmgr, ss, prev + [line])
  {
    var r := WriteToConnections(cmgr, line);
    forall j | 0 <= j < |ss|
      ensures cmgr.conns[j].msgbuffer.State() == Run(ss[j], PutOps(prev + [line])).state
    {
      RunPutOpsSnoc(ss[j], prev, line);
    }
  }

  /**
   * Talk's loop is `left` turns short of `goal`: the cursor `c` agrees with
   * the stream still unread and the buffer, and the listed buffers hold what
   * it has broadcast so far.
   */
  ghost predicate Talking(cmgr: ConnectionMgr, ss: seq<BufState>, c: Cursor, rest: seq<char>, nmeabuf: string)
    reads cmgr, cmgr.conns, cmgr.Buffers()
  {
    && c.rest == rest && c.buf == nmeabuf
    && cmgr.Valid() && Broadcasted(cmgr, ss, c.sent)
  }

  /**
   * One turn of talk's loop: fgets the next line into the buffer (which
   * keeps its contents at the end of the stream) and broadcast it when it
   * is a sentence.
   */
  method Turn(cmgr: ConnectionMgr, rest: seq<char>, nmeabuf: string, ghost ss: seq<BufState>, ghost c: Cursor)
    returns (rest': seq<char>, nmeabuf': string, ghost c': Cursor)
    requires Talking(cmgr, ss, c, rest, nmeabuf)
    modifies cmgr.Buffers()
    ensures c' == Advance(c) && unchanged(cmgr) && Talking(cmgr, ss, c', rest', nmeabuf')
  {
    c' := Advance(c);
    nmeabuf' := NextBuffer(rest, nmeabuf);
    rest' := NextRest(rest);
    if !IsSentenceStart(nmeabuf') {
      assert c'.sent == c.sent;
      return;
    }
    Broadcast(cmgr, nmeabuf', ss, c.sent);
  }

  /** The cursors of the first `n` turns from `c`, each the turn after the one before. */
  function Trajectory(c: Cursor, n: nat): (cs: seq<Cursor>)
    ensures |cs| == n + 1 && cs[0] == c && cs[n] == Turns(c, n)
    ensures forall k | 0 <= k < n :: cs[k + 1] == Advance(cs[k])
    decreases n
  {
    if n == 0 then [c] else [c] + Trajectory(Advance(c), n - 1)
  }

  /** Talk's loop starts with nothing broadcast. */
  lemma TalkingStart(cmgr: ConnectionMgr, stream: seq<char>, stale: string)
    requires cmgr.Valid()
    ensures Talking(cmgr, cmgr.States(), Cursor(stream, stale, []), stream, stale)
  {
    assert PutOps([]) == [];
  }

  /**
   * The endless loop of talk, cut off after `rounds` turns: every listed
   * buffer receives what the turns broadcast, in order.
   */
  method TalkLoop(cmgr: ConnectionMgr, stream: seq<char>, stale: string, rounds: nat)
    requires cmgr.Valid()
    modifies cmgr.Buffers()
    ensures cmgr.Valid() && unchanged(cmgr)
    ensures forall j | 0 <= j < |cmgr.conns| ::
      cmgr.conns[j].msgbuffer.State() == Run(old(cmgr.conns[j].msgbuffer.State()), PutOps(Turns(Cursor(stream, stale, []), rounds).sent)).state
  {
    ghost var ss := cmgr.States();
    ghost var cs := Trajectory(Cursor(stream, stale, []), rounds);
    TalkingStart(cmgr, stream, stale);
    var rest := stream;
    var nmeabuf := stale;
    ghost var c := Cursor(stream, stale, []);
    var i := 0;
    while i < rounds
      invariant 0 <= i <= rounds && unchanged(cmgr)
      invariant c == cs[i] && Talking(cmgr, ss, c, rest, nmeabuf)
    {
      rest, nmeabuf, c := Turn(cmgr, rest, nmeabuf, ss, c);
      i := i + 1;
    }
  }
}
