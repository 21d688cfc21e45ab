/** Whole calls of the segmenting send loop: what they send, when a segment is empty, and when the
    sender is left asleep although the window is open. */
module SendCalls {
  import opened Common
  import opened TcpState
  import opened SendLoop

  datatype Outcome = Outcome(end: World, result: SendResult, wlen: nat, turns: seq<Turn>)

  /** The whole loop from byte wlen of buf on. */
  function SendRun(v: World, buf: seq<Byte>, wlen: nat, slices: Schedule, k: nat): (o: Outcome)
    requires wlen <= |buf| && k <= |slices|
    decreases |slices| - k, |buf| - wlen, Pending(v)
  {
    if wlen == |buf| then Outcome(v, Sent, wlen, [])
    else
      var step := OneTurn(v, buf[wlen..], slices, k);
      match step
      case Stopped(t, r) => Outcome(t, r, wlen, [])
      case Overrun(_, t) => Outcome(t, Overran, wlen, [])
      case Emitted(turn, t, next) =>
        TurnMakesProgress(v, buf[wlen..], slices, k, step);
        var o := SendRun(t, buf, wlen + |turn.segment.payload|, slices, next);
        o.(turns := [turn] + o.turns)
  }

  function Segments(turns: seq<Turn>): (gs: seq<Segment>)
    ensures |gs| == |turns| && forall i | 0 <= i < |gs| :: gs[i] == turns[i].segment
  {
    if turns == [] then [] else [turns[0].segment] + Segments(turns[1..])
  }

  /** The turns already taken, followed by those still to come. */
  function Continued(done: seq<Turn>, o: Outcome): Outcome { o.(turns := done + o.turns) }

  lemma ContinuedCons(done: seq<Turn>, t: Turn, o: Outcome)
    ensures Continued(done, o.(turns := [t] + o.turns)) == Continued(done + [t], o)
    ensures Segments(done + [t]) == Segments(done) + [t.segment]
  {
    assert done + ([t] + o.turns) == (done + [t]) + o.turns;
  }

  /** What is left of the whole call after one more turn. */
  lemma OneTurnLess(done: seq<Turn>, v: World, buf: seq<Byte>, wlen: nat, slices: Schedule, k: nat, step: Step)
    requires wlen < |buf| && k <= |slices| && step == OneTurn(v, buf[wlen..], slices, k)
    ensures match step
      case Stopped(t, r) => Continued(done, SendRun(v, buf, wlen, slices, k)) == Outcome(t, r, wlen, done)
      case Overrun(_, t) => Continued(done, SendRun(v, buf, wlen, slices, k)) == Outcome(t, Overran, wlen, done)
      case Emitted(turn, t, next) =>
        && Continued(done, SendRun(v, buf, wlen, slices, k))
           == Continued(done + [turn], SendRun(t, buf, wlen + |turn.segment.payload|, slices, next))
        && Segments(done + [turn]) == Segments(done) + [turn.segment]
  {
    hide OneTurn;
    match step
    case Stopped(t, r) =>
      assert done + [] == done;
    case Overrun(_, t) =>
      assert done + [] == done;
    case Emitted(turn, t, next) =>
      ContinuedCons(done, turn, SendRun(t, buf, wlen + |turn.segment.payload|, slices, next));
  }

  // ---- what a whole call sends

  /** Each segment is numbered one past the end of the one before. */
  ghost predicate Contiguous(first: U32, gs: seq<Segment>)
    decreases |gs|
  {
    if gs == [] then true else gs[0].seqNo == first && Contiguous(Plus(first, |gs[0].payload|), gs[1..])
  }

  ghost predicate AllLawful(turns: seq<Turn>) { forall i | 0 <= i < |turns| :: Lawful(turns[i]) }

  /** The payloads make up the part of buf that counts as written, every turn is lawful, and the call runs
      over only when the window exceeds what is left. */
  ghost predicate WellSent(buf: seq<Byte>, wlen: nat, o: Outcome)
    requires wlen <= |buf|
  {
    && wlen <= o.wlen <= |buf| && (o.result == Sent <==> o.wlen == |buf|) && SoundReturn(o.end, o.result)
    && (o.result == Overran ==> o.end.sock.sndWnd > |buf| - o.wlen)
    && Payloads(Segments(o.turns)) == buf[wlen..o.wlen] && AllLawful(o.turns)
  }

  /** The segments are numbered without gaps, up to the number kept for the next one. */
  ghost predicate WellNumbered(first: U32, wlen: nat, o: Outcome) {
    wlen <= o.wlen && Contiguous(first, Segments(o.turns)) && o.end.sock.sndNxt == Plus(first, o.wlen - wlen)
  }

  lemma SegmentsCons(t: Turn, turns: seq<Turn>)
    ensures Segments([t] + turns) == [t.segment] + Segments(turns)
    ensures Payloads(Segments([t] + turns)) == t.segment.payload + Payloads(Segments(turns))
  {
    assert ([t] + turns)[1..] == turns;
    PayloadsCons(Segments([t] + turns));
    assert Segments([t] + turns)[1..] == Segments(turns);
  }

  lemma WellSentCons(buf: seq<Byte>, wlen: nat, t: Turn, o: Outcome)
    requires wlen <= |buf| && Lawful(t) && t.segment.payload <= buf[wlen..]
    requires WellSent(buf, wlen + |t.segment.payload|, o)
    ensures WellSent(buf, wlen, o.(turns := [t] + o.turns))
  {
    SegmentsCons(t, o.turns);
    SliceSplit(buf, wlen, t.segment.payload, o.wlen);
    AllLawfulCons(t, o.turns);
  }

  lemma SliceSplit(buf: seq<Byte>, a: nat, p: seq<Byte>, b: nat)
    requires a <= |buf| && p <= buf[a..] && a + |p| <= b <= |buf|
    ensures buf[a..b] == p + buf[a + |p|..b]
  {
  }

  lemma AllLawfulCons(t: Turn, turns: seq<Turn>)
    requires Lawful(t) && AllLawful(turns)
    ensures AllLawful([t] + turns)
  {
  }

  lemma ContiguousCons(first: U32, g: Segment, gs: seq<Segment>)
    requires g.seqNo == first && Contiguous(Plus(first, |g.payload|), gs)
    ensures Contiguous(first, [g] + gs)
  {
    assert ([g] + gs)[1..] == gs;
  }

  lemma WellNumberedCons(first: U32, wlen: nat, t: Turn, o: Outcome)
    requires t.segment.seqNo == first
    requires WellNumbered(Plus(first, |t.segment.payload|), wlen + |t.segment.payload|, o)
    ensures WellNumbered(first, wlen, o.(turns := [t] + o.turns))
  {
    hide Plus;
    SegmentsCons(t, o.turns);
    ContiguousCons(first, t.segment, Segments(o.turns));
    PlusPlus(first, |t.segment.payload|, o.wlen - wlen - |t.segment.payload|);
  }

  ghost predicate Good(v: World, buf: seq<Byte>, wlen: nat, o: Outcome)
    requires wlen <= |buf|
  {
    WellSent(buf, wlen, o) && WellNumbered(v.sock.sndNxt, wlen, o)
  }

  lemma GoodCons(v: World, buf: seq<Byte>, wlen: nat, turn: Turn, t: World, o: Outcome)
    requires wlen <= |buf| && Extends(v, buf[wlen..], turn, t)
    requires Good(t, buf, wlen + |turn.segment.payload|, o)
    ensures Good(v, buf, wlen, o.(turns := [turn] + o.turns))
  {
    WellSentCons(buf, wlen, turn, o);
    WellNumberedCons(v.sock.sndNxt, wlen, turn, o);
  }

  lemma GoodStop(v: World, buf: seq<Byte>, wlen: nat, t: World, r: SendResult)
    requires wlen <= |buf| && (r == Sent <==> wlen == |buf|)
    requires SoundReturn(t, r) && t.sock.sndNxt == v.sock.sndNxt
    requires r == Overran ==> t.sock.sndWnd > |buf| - wlen
    ensures Good(v, buf, wlen, Outcome(t, r, wlen, []))
  {
    assert buf[wlen..wlen] == [];
  }

  /** Whatever the receiving thread does meanwhile, and at whatever moment. */
  lemma {:induction false} SendRunMeaning(v: World, buf: seq<Byte>, wlen: nat, slices: Schedule, k: nat)
    requires wlen <= |buf| && k <= |slices| && !v.sock.waitSend.sleep
    ensures Good(v, buf, wlen, SendRun(v, buf, wlen, slices, k))
    decreases |slices| - k, |buf| - wlen, Pending(v)
  {
    hide OneTurn, Lawful, LawfulCut, Good;
    if wlen == |buf| {
      GoodStop(v, buf, wlen, v, Sent);
    } else {
      var step := OneTurn(v, buf[wlen..], slices, k);
      TurnMeaning(v, buf[wlen..], slices, k);
      match step
      case Stopped(t, r) =>
        GoodStop(v, buf, wlen, t, r);
      case Overrun(_, t) =>
        GoodStop(v, buf, wlen, t, Overran);
      case Emitted(turn, t, next) =>
        TurnMakesProgress(v, buf[wlen..], slices, k, step);
        SendRunMeaning(t, buf, wlen + |turn.segment.payload|, slices, next);
        GoodCons(v, buf, wlen, turn, t, SendRun(t, buf, wlen + |turn.segment.payload|, slices, next));
    }
  }

  // ---- calls that are left asleep

  /** How far the receiving thread is with an update after the first i slices. */
  function PhaseAt(slices: Schedule, i: nat): Option<Phase>
    requires i <= |slices|
  {
    PhaseAfter(Resting, Between(slices, 0, i))
  }

  /** Every update stores the window before the sender runs again since it looked, and all of them end. */
  ghost predicate StoresAtOnce(slices: Schedule) {
    && (forall i | 0 <= i <= |slices| :: PhaseAt(slices, i).Some? && PhaseAt(slices, i) != Some(Looked))
    && PhaseAt(slices, |slices|) == Some(Resting)
  }

  lemma TurnIsNotForgotten(v: World, rest: seq<Byte>, slices: Schedule, k: nat)
    requires k <= |slices| && rest != [] && !v.sock.waitSend.sleep && StoresAtOnce(slices)
    ensures var r := OneTurn(v, rest, slices, k);
      r.Stopped? && r.result == Asleep ==> r.end.sock.sndWnd == 0
  {
    var (found, a) := Preempt(v, slices, k);
    PreemptMoves(v, slices, k);
    if found.sock.sndWnd == 0 {
      BetweenSplit(slices, 0, a, |slices|);
      PhaseConcat(Resting, Between(slices, 0, a), Between(slices, a, |slices|));
      assert PhaseAt(slices, a).Some?;
      AssuredAwait(found, PhaseAt(slices, a).value, slices, a);
    }
  }

  /** Then a call is never left asleep with the window open. */
  lemma {:induction false} NotForgottenIfStoredAtOnce(v: World, buf: seq<Byte>, wlen: nat, slices: Schedule, k: nat)
    requires wlen <= |buf| && k <= |slices| && !v.sock.waitSend.sleep && StoresAtOnce(slices)
    ensures var o := SendRun(v, buf, wlen, slices, k);
      o.result == Asleep ==> o.end.sock.sndWnd == 0
    decreases |slices| - k, |buf| - wlen, Pending(v)
  {
    hide OneTurn;
    if wlen < |buf| {
      var step := OneTurn(v, buf[wlen..], slices, k);
      TurnMeaning(v, buf[wlen..], slices, k);
      TurnMakesProgress(v, buf[wlen..], slices, k, step);
      TurnIsNotForgotten(v, buf[wlen..], slices, k);
      if step.Emitted? {
        NotForgottenIfStoredAtOnce(step.end, buf, wlen + |step.turn.segment.payload|, slices, step.next);
      }
    }
  }

  /** An update that looks at the window before the sender uses it up, and stores only when the sender
      has gone to sleep. */
  function Straddling(wnd: U16): Schedule { [[Look], [], [], [], [], [], [], [Store(wnd), Notify]] }

  lemma StraddledTurn(v: World, rest: seq<Byte>, w: U16)
    requires 0 < v.sock.sndWnd <= MAX_SEGMENT && |rest| > v.sock.sndWnd && v.sock.waitSend == AWAKE
    ensures var r := OneTurn(v, rest, Straddling(w), 0);
      && r.Emitted? && r.next == 5 && |r.turn.segment.payload| == v.sock.sndWnd
      && r.end.sock.sndWnd == 0 && r.end.seen == v.sock.sndWnd && r.end.sock.waitSend == AWAKE
  {
    AfterSnoc(v, [], Look);
    assert [] + [Look] == [Look];
  }

  lemma StraddledSleep(v: World, rest: seq<Byte>, w: U16)
    requires v.sock.sndWnd == 0 && v.seen != 0 && v.sock.waitSend == AWAKE && rest != []
    ensures OneTurn(v, rest, Straddling(w), 5) == Stopped(WithWindow(WithWait(v, SLEEPING), w), Asleep)
  {
    StoreThenNotify(WithWait(v, SLEEPING), w);
    assert Blocked(WithWait(v, SLEEPING), Straddling(w), 7) == (WithWindow(WithWait(v, SLEEPING), w), 8, Asleep);
  }

  /** A lost wake-up: the call sends one segment and sleeps for good, whatever window was granted. */
  lemma LostWakeUp(v: World, buf: seq<Byte>, w: U16)
    requires 0 < v.sock.sndWnd <= MAX_SEGMENT && |buf| > v.sock.sndWnd && v.sock.waitSend == AWAKE
    ensures var o := SendRun(v, buf, 0, Straddling(w), 0);
      && PhaseAt(Straddling(w), 8) == Some(Resting)
      && o.result == Asleep && o.wlen == v.sock.sndWnd && o.end.sock.sndWnd == w
  {
    StraddledTurn(v, buf, w);
    var step := OneTurn(v, buf, Straddling(w), 0);
    assert buf[0..] == buf;
    StraddledSleep(step.end, buf[v.sock.sndWnd..], w);
    StraddlingIsProper(w);
  }

  lemma StraddlingIsProper(w: U16)
    ensures PhaseAt(Straddling(w), 8) == Some(Resting)
  {
    var slices := Straddling(w);
    assert Between(slices, 0, 1) == [Look];
    assert Between(slices, 0, 2) == Between(slices, 0, 3) == [Look];
    assert Between(slices, 0, 4) == Between(slices, 0, 5) == [Look];
    assert Between(slices, 0, 6) == Between(slices, 0, 7) == [Look];
    assert Between(slices, 0, 8) == [Look] + [Store(w), Notify];
    PhaseConcat(Resting, [Look], [Store(w), Notify]);
    StoreEndsUpdate(w);
    assert [Look][..0] == [];
  }

  // ---- pieces beyond the limit

  /** An update that comes between the two readings of the window. */
  function Raising(wnd: U16): Schedule { [[], [], [Look, Store(wnd), Notify]] }

  lemma RaisedTurn(v: World, rest: seq<Byte>, w: U16)
    requires 0 < v.sock.sndWnd <= Limit(|rest|)
    ensures var step := OneTurn(v, rest, Raising(w), 0);
      if w > |rest| then step.Overrun? else step.Emitted? && |step.turn.segment.payload| == w
  {
    WholeUpdate(v, w);
  }

  /** A window within the limit, raised before it is read again: the first piece is as long as the new window,
      whatever the frame holds, or the call reads past the end of the data. */
  lemma RaisedBetweenReadings(v: World, buf: seq<Byte>, w: U16)
    requires 0 < v.sock.sndWnd <= Limit(|buf|)
    ensures var o := SendRun(v, buf, 0, Raising(w), 0);
      if w > |buf| then o.result == Overran && o.turns == []
      else o.turns != [] && |o.turns[0].segment.payload| == w
  {
    RaisedTurn(v, buf, w);
    hide OneTurn;
    assert buf[0..] == buf;
  }

  // ---- empty segments

  ghost predicate EmptyAt(turns: seq<Turn>, i: nat) { i < |turns| && turns[i].segment.payload == [] }

  /** The last segment is empty if the flag says so, and no other is. */
  ghost predicate OnlyLastEmpty(turns: seq<Turn>, flag: bool) {
    (flag ==> turns != []) && forall i: nat :: EmptyAt(turns, i) <==> flag && i == |turns| - 1
  }

  lemma OnlyLastEmptyCons(t: Turn, turns: seq<Turn>, flag: bool)
    ensures t.segment.payload != [] && OnlyLastEmpty(turns, flag) ==> OnlyLastEmpty([t] + turns, flag)
    ensures t.segment.payload == [] && turns == [] ==> OnlyLastEmpty([t] + turns, true)
  {
    if t.segment.payload != [] && OnlyLastEmpty(turns, flag) {
      forall i: nat ensures EmptyAt([t] + turns, i) <==> flag && i == |turns| {
        assert i > 0 ==> (EmptyAt([t] + turns, i) <==> EmptyAt(turns, i - 1));
      }
    }
  }

  /** Left alone, the sender uses up the window; if more is to be sent it falls asleep, after an empty
      last segment exactly when a notification was still pending. */
  lemma {:induction false} QuietSend(v: World, buf: seq<Byte>, wlen: nat, slices: Schedule)
    requires wlen <= |buf| && !v.sock.waitSend.dead
    ensures var o := SendRun(v, buf, wlen, slices, |slices|);
      var tooLong := |buf| - wlen > v.sock.sndWnd;
      && o.result == (if tooLong then Asleep else Sent)
      && o.wlen == (if tooLong then wlen + v.sock.sndWnd else |buf|)
      && OnlyLastEmpty(o.turns, tooLong && v.sock.waitSend.notified)
      && (v.sock.sndWnd == 0 && !v.sock.waitSend.notified ==> o.turns == [])
    decreases |buf| - wlen, Pending(v)
  {
    if wlen < |buf| {
      UndisturbedTurn(v, buf[wlen..], slices, |slices|);
      var step := OneTurn(v, buf[wlen..], slices, |slices|);
      if step.Emitted? {
        var mid := wlen + |step.turn.segment.payload|;
        QuietSend(step.end, buf, mid, slices);
        OnlyLastEmptyCons(step.turn, SendRun(step.end, buf, mid, slices, |slices|).turns,
                          |buf| - wlen > v.sock.sndWnd && v.sock.waitSend.notified);
      }
    }
  }

  /** The handshake itself leaves a notification pending on either side, so the first write that
      exceeds the peer's window sends it an empty segment, which its receive buffer's assertion
      rejects; no shorter write does. */
  lemma FirstWriteEmptyIff(s: Sock, seen: U16, g: Segment, buf: seq<Byte>)
    requires (s.state == SynSent && g.flags == SYN_ACK) || s.state == SynRecv
    requires s.sndWnd == 0 && s.waitSend == AWAKE
    ensures var t := Process(s, g).0;
      var o := SendRun(World(t, seen), buf, 0, [], 0);
      && t.state == Established && t.waitSend.notified
      && ((exists i :: EmptyAt(o.turns, i)) <==> |buf| > g.rwnd)
      && forall i: nat, peer: Sock | EmptyAt(o.turns, i) && peer.state == Established :: !Fits(peer, o.turns[i].segment)
  {
    var v := World(Process(s, g).0, seen);
    QuietSend(v, buf, 0, []);
    SendRunMeaning(v, buf, 0, [], 0);
    var o := SendRun(v, buf, 0, [], 0);
    if |buf| > g.rwnd {
      assert EmptyAt(o.turns, |o.turns| - 1);
    }
    forall i: nat, peer: Sock | EmptyAt(o.turns, i) && peer.state == Established
      ensures !Fits(peer, o.turns[i].segment)
    {
      assert AllLawful(o.turns) && Lawful(o.turns[i]);
    }
  }

  /** With the default window: 65535 bytes pass, the next one is preceded by an empty segment. */
  lemma OneByteTooMany(iss: U32, peer: U32, seen: U16, buf: seq<Byte>)
    requires |buf| == 65536
    ensures var s := Connect(Sock(Closed, iss, 0, 0, DEFAULT_WINDOW, [], DEFAULT_WINDOW, AWAKE)).0;
      var t := Process(s, Segment(SYN_ACK, peer, s.sndNxt, DEFAULT_WINDOW, [])).0;
      var o := SendRun(World(t, seen), buf, 0, [], 0);
      o.result == Asleep && o.wlen == 65535 && |o.turns| > 0 && EmptyAt(o.turns, |o.turns| - 1)
  {
    var s := Connect(Sock(Closed, iss, 0, 0, DEFAULT_WINDOW, [], DEFAULT_WINDOW, AWAKE)).0;
    QuietSend(World(Process(s, Segment(SYN_ACK, peer, s.sndNxt, DEFAULT_WINDOW, [])).0, seen), buf, 0, []);
  }
}
