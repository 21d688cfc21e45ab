/** One turn of the segmenting send loop, against every interleaving of the window's accesses with the
    thread that receives window updates. */
module SendLoop {
  import opened Common
  import opened RingBuffers
  import opened TcpState
  import SynchWait

  /** One access of the receiving thread.  An update looks at the window, stores the new one, and notifies
      the sender if the window it saw was zero; the wait structure may also come to its end. */
  datatype Event = Look | Store(wnd: U16) | Notify | Death

  /** Slice k holds what happens while the sender stands at its k-th point of preemption; once the
      slices are used up nothing happens any more. */
  type Schedule = seq<seq<Event>>

  /** Overran: the original reads past the end of the data. */
  datatype SendResult = Sent | Failed | Asleep | Overran

  /** The socket, and the window that the receiving thread saw when it last looked. */
  datatype World = World(sock: Sock, seen: U16)

  // ---- the receiving thread

  function WithWait(v: World, f: SynchWait.Flags): World { v.(sock := v.sock.(waitSend := f)) }

  function WithWindow(v: World, wnd: U16): World { v.(sock := v.sock.(sndWnd := wnd)) }

  /** The flag says that a sleeping sender is signalled. */
  function Happen(v: World, e: Event): (World, bool) {
    match e
    case Look => (v.(seen := v.sock.sndWnd), false)
    case Store(w) => (WithWindow(v, w), false)
    case Notify =>
      if v.seen == 0 then var (f, signals) := SynchWait.Wake(v.sock.waitSend); (WithWait(v, f), signals)
      else (v, false)
    case Death => var (f, signals) := SynchWait.Exit(v.sock.waitSend); (WithWait(v, f), signals)
  }

  function After(v: World, es: seq<Event>): (World, bool) {
    if es == [] then (v, false)
    else
      var (t, b) := After(v, es[..|es| - 1]);
      var (u, c) := Happen(t, es[|es| - 1]);
      (u, b || c)
  }

  lemma AfterSnoc(v: World, es: seq<Event>, e: Event)
    ensures var (t, b) := After(v, es);
      var (u, c) := Happen(t, e);
      After(v, es + [e]) == (u, b || c)
  {
    assert (es + [e])[..|es|] == es;
  }

  /** A whole update, when nothing comes between. */
  lemma WholeUpdate(v: World, w: U16)
    ensures After(v, [Look, Store(w), Notify]).0 == World(UpdateWindow(v.sock, w), v.sock.sndWnd)
  {
    AfterSnoc(v, [], Look);
    AfterSnoc(v, [Look], Store(w));
    AfterSnoc(v, [Look, Store(w)], Notify);
    assert [] + [Look] == [Look] && [Look] + [Store(w)] == [Look, Store(w)];
    assert [Look, Store(w)] + [Notify] == [Look, Store(w), Notify];
  }

  function LastStore(es: seq<Event>): Option<U16> {
    if es == [] then None
    else if es[|es| - 1].Store? then Some(es[|es| - 1].wnd)
    else LastStore(es[..|es| - 1])
  }

  /** The window after these events. */
  function WindowAfter(wnd: U16, es: seq<Event>): U16 {
    match LastStore(es) case None => wnd case Some(w) => w
  }

  function Between(slices: Schedule, a: nat, b: nat): seq<Event>
    requires a <= b <= |slices|
  {
    if a == b then [] else Between(slices, a, b - 1) + slices[b - 1]
  }

  // ---- the sending thread

  /** The sender is preempted for one slice. */
  function Preempt(v: World, slices: Schedule, k: nat): (r: (World, nat))
    requires k <= |slices|
    ensures k <= r.1 <= |slices| && (k < |slices| ==> k < r.1)
  {
    if k < |slices| then (After(v, slices[k]).0, k + 1) else (v, k)
  }

  /** Back from the critical section, sleep_on reads `dead` once more. */
  function Return(v: World, slices: Schedule, k: nat): (r: (World, nat, SendResult))
    requires k <= |slices|
    ensures k <= r.1 <= |slices| && r.2 != Overran
  {
    var (t, b) := Preempt(v, slices, k);
    (t, b, if t.sock.waitSend.dead then Failed else Sent)
  }

  /** Asleep until a slice signals. */
  function Blocked(v: World, slices: Schedule, k: nat): (r: (World, nat, SendResult))
    requires k <= |slices|
    ensures k <= r.1 <= |slices| && r.2 != Overran
    decreases |slices| - k
  {
    if k == |slices| then (v, k, Asleep)
    else
      var (t, signalled) := After(v, slices[k]);
      if signalled then Return(WithWait(t, SynchWait.Resume(t.sock.waitSend)), slices, k + 1)
      else Blocked(t, slices, k + 1)
  }

  /** From the test of the window to the point where the piece is cut. */
  function Await(v: World, slices: Schedule, k: nat): (r: (World, nat, SendResult))
    requires k <= |slices|
    ensures k <= r.1 <= |slices| && r.2 != Overran
  {
    if v.sock.sndWnd != 0 then (v, k, Sent)
    else
      var (t, a) := Preempt(v, slices, k);
      var (f, blocks) := SynchWait.Enter(t.sock.waitSend);
      if blocks then Blocked(WithWait(t, f), slices, a) else Return(WithWait(t, f), slices, a)
  }

  /** The segment goes out; between reading the window and writing it back the sender is preempted. */
  function Emit(v: World, data: seq<Byte>, slices: Schedule, k: nat): (r: (World, nat, Segment))
    requires k <= |slices|
    ensures k <= r.1 <= |slices| && (k < |slices| ==> k < r.1)
  {
    var (s, g) := Transmit(v.sock, data);
    var (t, b) := Preempt(v.(sock := v.sock.(sndNxt := s.sndNxt)), slices, k);
    (WithWindow(t, s.sndWnd), b, g)
  }

  /** What the size of a piece comes from: the window when it was tested and whether a notification was
      pending then, the window when it was compared with the limit and, where it was no larger than that,
      when it was read again as the size.  `since` happened between test and comparison, `between` between
      the comparison and the second reading. */
  datatype Cut = Cut(found: U16, pending: bool, since: seq<Event>, first: U16, between: seq<Event>, second: U16)

  /** One turn of the loop with `rest` bytes to go, and the window left behind.  `late` happened between the
      cut and the reading of the window to lower it, `lost` between that and the writing. */
  datatype Turn = Turn(cut: Cut, rest: nat, late: seq<Event>, lost: seq<Event>, left: U16, segment: Segment)

  /** Overrun: the piece is longer than what is left to send. */
  datatype Step =
    | Stopped(end: World, result: SendResult)
    | Overrun(cut: Cut, end: World)
    | Emitted(turn: Turn, end: World, next: nat)

  function Limit(rest: nat): nat { Min(MAX_SEGMENT, rest) }

  /** With its 54 bytes of headers a piece within the limit fits a frame of 1500, and only what does not fit
      whole is cut. */
  lemma LimitFillsFrame(rest: nat)
    ensures Limit(rest) + 54 <= 1500
    ensures rest + 54 <= 1500 ==> Limit(rest) == rest
    ensures rest + 54 > 1500 ==> Limit(rest) + 54 == 1500
  {
  }

  function PieceSize(rest: nat, c: Cut): nat { if Limit(rest) < c.first then Limit(rest) else c.second }

  /** The second reading of the window, where there is one. */
  function ReadAgain(v: World, rest: nat, slices: Schedule, k: nat): (r: (World, nat))
    requires k <= |slices|
    ensures k <= r.1 <= |slices|
  {
    if Limit(rest) < v.sock.sndWnd then (v, k) else Preempt(v, slices, k)
  }

  function OneTurn(v: World, rest: seq<Byte>, slices: Schedule, k: nat): (r: Step)
    requires k <= |slices|
    ensures r.Emitted? ==> k <= r.next <= |slices| && (k < |slices| ==> k < r.next)
    ensures r.Emitted? ==> |r.turn.segment.payload| <= |rest|
    ensures r.Stopped? ==> r.result != Sent && r.result != Overran
  {
    var (found, a) := Preempt(v, slices, k);
    var (ready, b, r) := Await(found, slices, a);
    if r != Sent then Stopped(ready, r)
    else
      var (compared, c) := Preempt(ready, slices, b);
      var (sized, d) := ReadAgain(compared, |rest|, slices, c);
      var cut := Cut(found.sock.sndWnd, found.sock.waitSend.notified, Between(slices, a, c), compared.sock.sndWnd,
                     Between(slices, c, d), sized.sock.sndWnd);
      var n := PieceSize(|rest|, cut);
      if n > |rest| then Overrun(cut, sized)
      else
        var (sending, e) := Preempt(sized, slices, d);
        var (end, f, g) := Emit(sending, rest[..n], slices, e);
        Emitted(Turn(cut, |rest|, Between(slices, d, e), Between(slices, e, f), end.sock.sndWnd, g), end, f)
  }

  function Pending(v: World): nat { if v.sock.waitSend.notified then 1 else 0 }

  /** With nothing left to happen, a turn sends something or uses up the pending notification. */
  lemma UndisturbedTurn(v: World, rest: seq<Byte>, slices: Schedule, k: nat)
    requires k <= |slices| && rest != []
    ensures k == |slices| ==>
      var s, r := v.sock, OneTurn(v, rest, slices, k);
      if s.sndWnd != 0 || (s.waitSend.notified && !s.waitSend.dead) then
        && r.Emitted? && r.next == k
        && |r.turn.segment.payload| == Min(Limit(|rest|), s.sndWnd)
        && r.end.sock.sndWnd == s.sndWnd - Min(Limit(|rest|), s.sndWnd)
        && (r.turn.segment.payload == [] <==> s.sndWnd == 0)
        && r.end.sock.waitSend.dead == s.waitSend.dead
        && r.end.sock.waitSend.notified == (s.waitSend.notified && s.sndWnd != 0)
      else r.Stopped? && r.end.sock.sndWnd == 0 && (r.result == Failed <==> s.waitSend.dead)
  {
  }

  /** So the loop ends once nothing happens any more. */
  lemma TurnMakesProgress(v: World, rest: seq<Byte>, slices: Schedule, k: nat, step: Step)
    requires k <= |slices| && rest != [] && step == OneTurn(v, rest, slices, k)
    ensures k == |slices| && step.Emitted? ==>
      step.next == k && (step.turn.segment.payload != [] || Pending(step.end) < Pending(v))
  {
    UndisturbedTurn(v, rest, slices, k);
  }

  // ---- what the events leave behind

  /** t comes from v while these events happen: the window is the one stored last, only a notifying
      event raises the notification, and only a death ends the wait structure, for good. */
  ghost predicate Moves(v: World, es: seq<Event>, t: World) {
    && t.sock == v.sock.(sndWnd := WindowAfter(v.sock.sndWnd, es), waitSend := t.sock.waitSend)
    && (t.sock.waitSend.notified ==> v.sock.waitSend.notified || Notify in es)
    && (t.sock.waitSend.dead <==> v.sock.waitSend.dead || Death in es)
  }

  /** A live sleeper is signalled exactly when a flag goes up. */
  lemma {:induction false} AfterMoves(v: World, es: seq<Event>)
    ensures var (t, signalled) := After(v, es);
      var f, g := v.sock.waitSend, t.sock.waitSend;
      && Moves(v, es, t) && g.sleep == f.sleep && (f.notified ==> g.notified)
      && signalled == (f.sleep && (g.notified != f.notified || g.dead != f.dead))
  {
    if es != [] {
      AfterMoves(v, es[..|es| - 1]);
    }
  }

  lemma {:induction false} LastStoreConcat(a: seq<Event>, b: seq<Event>)
    ensures LastStore(a + b) == if LastStore(b).Some? then LastStore(b) else LastStore(a)
  {
    if b == [] {
      assert a + b == a;
    } else {
      LastStoreConcat(a, b[..|b| - 1]);
      assert (a + b)[..|a + b| - 1] == a + b[..|b| - 1];
    }
  }

  lemma {:induction false} BetweenSplit(slices: Schedule, a: nat, b: nat, c: nat)
    requires a <= b <= c <= |slices|
    ensures Between(slices, a, c) == Between(slices, a, b) + Between(slices, b, c)
  {
    if b < c {
      BetweenSplit(slices, a, b, c - 1);
    }
  }

  lemma BetweenOne(slices: Schedule, k: nat)
    requires k < |slices|
    ensures Between(slices, k, k + 1) == slices[k]
  {
  }

  lemma MovesCompose(v: World, a: seq<Event>, t: World, b: seq<Event>, u: World)
    requires Moves(v, a, t) && Moves(t, b, u)
    ensures Moves(v, a + b, u)
  {
    LastStoreConcat(a, b);
  }

  lemma MovesAlong(v: World, t: World, u: World, slices: Schedule, a: nat, b: nat, c: nat)
    requires a <= b <= c <= |slices|
    requires Moves(v, Between(slices, a, b), t) && Moves(t, Between(slices, b, c), u)
    ensures Moves(v, Between(slices, a, c), u)
  {
    BetweenSplit(slices, a, b, c);
    MovesCompose(v, Between(slices, a, b), t, Between(slices, b, c), u);
  }

  lemma PreemptMoves(v: World, slices: Schedule, k: nat)
    requires k <= |slices|
    ensures var (t, b) := Preempt(v, slices, k);
      && Moves(v, Between(slices, k, b), t) && t.sock.waitSend.sleep == v.sock.waitSend.sleep
      && (v.sock.waitSend.notified ==> t.sock.waitSend.notified)
  {
    if k < |slices| {
      AfterMoves(v, slices[k]);
      BetweenOne(slices, k);
    }
  }

  const SLEEPING := SynchWait.Flags(false, false, true)

  /** How sleep_on ends, or not: a sleeper has not been notified, and is not dead. */
  ghost predicate SoundReturn(t: World, r: SendResult) {
    && (r == Sent ==> !t.sock.waitSend.sleep) && (r == Failed ==> t.sock.waitSend.dead)
    && (r == Asleep ==> t.sock.waitSend == SLEEPING)
  }

  lemma ReturnMoves(v: World, slices: Schedule, k: nat)
    requires k <= |slices| && !v.sock.waitSend.sleep
    ensures var (t, b, r) := Return(v, slices, k);
      && Moves(v, Between(slices, k, b), t) && SoundReturn(t, r)
      && r != Asleep && (r == Failed <==> t.sock.waitSend.dead)
  {
    PreemptMoves(v, slices, k);
  }

  /** What ends the sleep is a notification. */
  lemma {:induction false} BlockedMoves(v: World, slices: Schedule, k: nat)
    requires k <= |slices| && v.sock.waitSend == SLEEPING
    ensures var (t, b, r) := Blocked(v, slices, k);
      var es := Between(slices, k, b);
      && Moves(v, es, t) && SoundReturn(t, r) && (r == Sent ==> Notify in es) && (r == Asleep ==> b == |slices|)
      && (r == Failed <==> t.sock.waitSend.dead)
    decreases |slices| - k
  {
    if k < |slices| {
      var (t, signalled) := After(v, slices[k]);
      var (u, b, r) := Blocked(v, slices, k);
      AfterMoves(v, slices[k]);
      BetweenOne(slices, k);
      if signalled {
        var w := WithWait(t, SynchWait.Resume(t.sock.waitSend));
        ReturnMoves(w, slices, k + 1);
        assert Moves(v, slices[k], w);
        MovesAlong(v, w, u, slices, k, k + 1, b);
      } else {
        BlockedMoves(t, slices, k + 1);
        MovesAlong(v, t, u, slices, k, k + 1, b);
      }
      BetweenSplit(slices, k, k + 1, b);
    }
  }

  /** From the test to the cut: the sender gets past a zero window only on a notification, pending
      or given meanwhile, and fails there exactly when the wait structure is at its end. */
  lemma AwaitMeaning(v: World, slices: Schedule, k: nat)
    requires k <= |slices| && !v.sock.waitSend.sleep
    ensures var (t, b, r) := Await(v, slices, k);
      var es := Between(slices, k, b);
      && Moves(v, es, t) && SoundReturn(t, r) && (r == Asleep ==> b == |slices|)
      && (r == Sent && v.sock.sndWnd == 0 ==> v.sock.waitSend.notified || Notify in es)
      && (r == Failed <==> v.sock.sndWnd == 0 && t.sock.waitSend.dead)
  {
    if v.sock.sndWnd == 0 {
      var (t, a) := Preempt(v, slices, k);
      PreemptMoves(v, slices, k);
      var (f, blocks) := SynchWait.Enter(t.sock.waitSend);
      var u := WithWait(t, f);
      var end, b := Await(v, slices, k).0, Await(v, slices, k).1;
      if blocks {
        BlockedMoves(u, slices, a);
      } else {
        ReturnMoves(u, slices, a);
      }
      MovesAlong(v, u, end, slices, k, a, b);
      BetweenSplit(slices, k, a, b);
    }
  }

  // ---- what one turn sends

  /** Each window is the one stored last or, with none stored, the one before; a window found at zero was
      passed only on a notification, and nothing comes between the readings where there is but one. */
  ghost predicate LawfulCut(c: Cut, rest: nat) {
    && c.first == WindowAfter(c.found, c.since) && c.second == WindowAfter(c.first, c.between)
    && (c.found == 0 ==> c.pending || Notify in c.since)
    && (c.first > Limit(rest) ==> c.between == [])
  }

  /** A piece is as long as the frame, the rest and the window at the comparison allow, except exactly where
      a window within that limit changed before it was read again: then it is empty exactly if that window is
      zero, and too long for the frame exactly if that window is.  What the sender leaves behind is not the
      room that the peer granted exactly when the window was stored below the size of the piece after the cut
      (the 16 bits wrap) or changed between reading and writing (a lost update). */
  ghost predicate Lawful(t: Turn) {
    var n, c := |t.segment.payload|, t.cut;
    var read := WindowAfter(c.second, t.late);
    && LawfulCut(c, t.rest) && t.segment.flags == PSH_ACK && n <= t.rest && n <= c.second
    && (n != Min(Limit(t.rest), c.first) <==> c.first <= Limit(t.rest) && c.second != c.first)
    && (n == 0 <==> c.first <= Limit(t.rest) && c.second == 0)
    && (n > MAX_SEGMENT <==> c.first <= Limit(t.rest) && c.second > MAX_SEGMENT)
    && t.left == (read - n) % 0x1_0000
    && (t.left != WindowAfter(read, t.lost) - n <==> read < n || WindowAfter(read, t.lost) != read)
  }

  /** From the test to the comparison. */
  lemma CutMeaning(v: World, slices: Schedule, k: nat)
    requires k <= |slices| && !v.sock.waitSend.sleep
    ensures var (t, b, r) := Await(v, slices, k);
      if r != Sent then SoundReturn(t, r) && t.sock.sndNxt == v.sock.sndNxt
      else
        var (cut, c) := Preempt(t, slices, b);
        var since := Between(slices, k, c);
        && Moves(v, since, cut) && !cut.sock.waitSend.sleep
        && (v.sock.sndWnd == 0 ==> v.sock.waitSend.notified || Notify in since)
  {
    AwaitMeaning(v, slices, k);
    var (t, b, r) := Await(v, slices, k);
    if r == Sent {
      var (cut, c) := Preempt(t, slices, b);
      PreemptMoves(t, slices, b);
      MovesAlong(v, t, cut, slices, k, b, c);
      BetweenSplit(slices, k, b, c);
    }
  }

  /** From the cut to the end of the turn. */
  lemma EmitMeaning(cut: World, data: seq<Byte>, slices: Schedule, c: nat)
    requires c <= |slices| && |data| <= cut.sock.sndWnd
    ensures var (sending, d) := Preempt(cut, slices, c);
      var (t, b, g) := Emit(sending, data, slices, d);
      && g == Segment(PSH_ACK, cut.sock.sndNxt, cut.sock.rcvNxt, cut.sock.rcvWnd, data)
      && t.sock == cut.sock.(sndNxt := Plus(cut.sock.sndNxt, |data|), sndWnd := t.sock.sndWnd,
                             waitSend := t.sock.waitSend)
      && t.sock.waitSend.sleep == cut.sock.waitSend.sleep
      && t.sock.sndWnd == (WindowAfter(cut.sock.sndWnd, Between(slices, c, d)) - |data|) % 0x1_0000
  {
    var (sending, d) := Preempt(cut, slices, c);
    PreemptMoves(cut, slices, c);
    PreemptMoves(sending.(sock := sending.sock.(sndNxt := Transmit(sending.sock, data).0.sndNxt)), slices, d);
  }

  /** The segment carries the front of the rest, under the next number. */
  ghost predicate Extends(v: World, rest: seq<Byte>, turn: Turn, t: World) {
    && Lawful(turn) && turn.segment.seqNo == v.sock.sndNxt && turn.segment.payload <= rest
    && turn.segment.ack == v.sock.rcvNxt && turn.segment.rwnd == v.sock.rcvWnd
    && t.sock == v.sock.(sndNxt := Plus(v.sock.sndNxt, |turn.segment.payload|), sndWnd := turn.left,
                         waitSend := t.sock.waitSend)
    && !t.sock.waitSend.sleep
  }

  lemma WriteBack(read: U16, n: nat, written: U16)
    requires n < 0x1_0000
    ensures (read - n) % 0x1_0000 != written - n <==> read < n || written != read
  {
    assert read < n ==> (read - n) % 0x1_0000 == read - n + 0x1_0000;
  }

  lemma TurnIsLawful(t: Turn)
    requires t.rest > 0 && LawfulCut(t.cut, t.rest) && t.segment.flags == PSH_ACK
    requires |t.segment.payload| == PieceSize(t.rest, t.cut) <= t.rest
    requires t.left == (WindowAfter(t.cut.second, t.late) - |t.segment.payload|) % 0x1_0000
    ensures Lawful(t)
  {
    var read := WindowAfter(t.cut.second, t.late);
    WriteBack(read, |t.segment.payload|, WindowAfter(read, t.lost));
  }

  lemma ReadAgainMoves(v: World, rest: nat, slices: Schedule, k: nat)
    requires k <= |slices|
    ensures var (t, b) := ReadAgain(v, rest, slices, k);
      && Moves(v, Between(slices, k, b), t) && t.sock.waitSend.sleep == v.sock.waitSend.sleep
      && (v.sock.sndWnd > Limit(rest) ==> Between(slices, k, b) == [])
  {
    PreemptMoves(v, slices, k);
  }

  /** A piece runs over only where a window within the limit was raised above the rest before it was read
      again. */
  ghost predicate Overruns(v: World, rest: nat, c: Cut, t: World) {
    && LawfulCut(c, rest) && c.first <= Limit(rest) && rest < c.second == t.sock.sndWnd
    && t.sock.sndNxt == v.sock.sndNxt && !t.sock.waitSend.sleep
  }

  lemma TurnMeaning(v: World, rest: seq<Byte>, slices: Schedule, k: nat)
    requires k <= |slices| && rest != [] && !v.sock.waitSend.sleep
    ensures match OneTurn(v, rest, slices, k)
      case Stopped(t, r) => SoundReturn(t, r) && t.sock.sndNxt == v.sock.sndNxt
      case Overrun(c, t) => Overruns(v, |rest|, c, t)
      case Emitted(turn, t, next) => Extends(v, rest, turn, t)
  {
    var (found, a) := Preempt(v, slices, k);
    PreemptMoves(v, slices, k);
    CutMeaning(found, slices, a);
    var (ready, b, r) := Await(found, slices, a);
    if r == Sent {
      var (compared, c) := Preempt(ready, slices, b);
      ReadAgainMoves(compared, |rest|, slices, c);
      var (sized, d) := ReadAgain(compared, |rest|, slices, c);
      var step := OneTurn(v, rest, slices, k);
      if step.Emitted? {
        EmitMeaning(sized, step.turn.segment.payload, slices, d);
        TurnIsLawful(step.turn);
        hide Lawful, Plus, Emit, Preempt, WindowAfter;
      }
    }
  }

  // ---- a sleeper that is forgotten

  /** How far the receiving thread is with an update. */
  datatype Phase = Resting | Looked | Stored

  /** Events in the order in which one thread performs them, and how far it is afterwards. */
  function PhaseAfter(ph: Phase, es: seq<Event>): Option<Phase> {
    if es == [] then Some(ph)
    else
      match (PhaseAfter(ph, es[..|es| - 1]), es[|es| - 1])
      case (Some(Resting), Look) => Some(Looked)
      case (Some(Looked), Store(_)) => Some(Stored)
      case (Some(Stored), Notify) => Some(Resting)
      case (q, Death) => q
      case _ => None
  }

  lemma {:induction false} PhaseConcat(ph: Phase, a: seq<Event>, b: seq<Event>)
    ensures PhaseAfter(ph, a + b) ==
      match PhaseAfter(ph, a) case None => None case Some(q) => PhaseAfter(q, b)
  {
    if b == [] {
      assert a + b == a;
    } else {
      PhaseConcat(ph, a, b[..|b| - 1]);
      assert (a + b)[..|a + b| - 1] == a + b[..|b| - 1];
    }
  }

  /** The sender is notified or will be, or the window is zero and the update under way, if it has only
      looked, has seen that. */
  ghost predicate Assured(v: World, ph: Phase) {
    || v.sock.waitSend.notified || v.sock.waitSend.dead
    || (v.sock.sndWnd == 0 && (ph == Looked ==> v.seen == 0))
    || (ph == Stored && v.seen == 0)
  }

  lemma {:induction false} AssuredAfter(v: World, ph: Phase, es: seq<Event>)
    requires Assured(v, ph) && PhaseAfter(ph, es).Some?
    ensures Assured(After(v, es).0, PhaseAfter(ph, es).value)
  {
    if es != [] {
      AssuredAfter(v, ph, es[..|es| - 1]);
    }
  }

  lemma {:induction false} AssuredBlocked(v: World, ph: Phase, slices: Schedule, k: nat)
    requires k <= |slices| && Assured(v, ph) && v.sock.waitSend == SLEEPING
    requires PhaseAfter(ph, Between(slices, k, |slices|)) == Some(Resting)
    ensures Blocked(v, slices, k).2 == Asleep ==> Blocked(v, slices, k).0.sock.sndWnd == 0
    decreases |slices| - k
  {
    if k < |slices| {
      var (t, signalled) := After(v, slices[k]);
      AfterMoves(v, slices[k]);
      BetweenOne(slices, k);
      BetweenSplit(slices, k, k + 1, |slices|);
      PhaseConcat(ph, slices[k], Between(slices, k + 1, |slices|));
      AssuredAfter(v, ph, slices[k]);
      if signalled {
        ReturnMoves(WithWait(t, SynchWait.Resume(t.sock.waitSend)), slices, k + 1);
      } else {
        AssuredBlocked(t, PhaseAfter(ph, slices[k]).value, slices, k + 1);
      }
    }
  }

  lemma AssuredAwait(v: World, ph: Phase, slices: Schedule, k: nat)
    requires k <= |slices| && Assured(v, ph) && !v.sock.waitSend.sleep
    requires PhaseAfter(ph, Between(slices, k, |slices|)) == Some(Resting)
    ensures Await(v, slices, k).2 == Asleep ==> Await(v, slices, k).0.sock.sndWnd == 0
  {
    if v.sock.sndWnd == 0 {
      var (t, a) := Preempt(v, slices, k);
      var (f, blocks) := SynchWait.Enter(t.sock.waitSend);
      PreemptMoves(v, slices, k);
      BetweenSplit(slices, k, a, |slices|);
      PhaseConcat(ph, Between(slices, k, a), Between(slices, a, |slices|));
      if blocks {
        if k < |slices| {
          BetweenOne(slices, k);
          AssuredAfter(v, ph, slices[k]);
        }
        AssuredBlocked(WithWait(t, f), PhaseAfter(ph, Between(slices, k, a)).value, slices, a);
      } else {
        ReturnMoves(WithWait(t, f), slices, a);
      }
    }
  }

  /** The sender is left asleep although the window is open and no update is under way any more. */
  ghost predicate Forgets(v: World, ph: Phase, slices: Schedule) {
    && PhaseAfter(ph, Between(slices, 0, |slices|)) == Some(Resting)
    && var (t, _, r) := Await(v, slices, 0); r == Asleep && t.sock.sndWnd != 0
  }

  /** A sender that finds the window at zero can be forgotten exactly when an update has just looked at
      the window and saw it open: it is about to store without notifying. */
  lemma ForgottenIff(v: World, ph: Phase)
    requires v.sock.sndWnd == 0 && v.sock.waitSend == AWAKE
    ensures (exists slices :: Forgets(v, ph, slices)) <==> ph == Looked && v.seen != 0
  {
    if ph == Looked && v.seen != 0 {
      StaleLookForgets(v, 1);
    } else {
      forall slices ensures !Forgets(v, ph, slices) {
        if PhaseAfter(ph, Between(slices, 0, |slices|)) == Some(Resting) {
          AssuredAwait(v, ph, slices, 0);
        }
      }
    }
  }

  lemma StoreThenNotify(v: World, w: U16)
    requires v.seen != 0
    ensures After(v, [Store(w), Notify]) == (WithWindow(v, w), false)
  {
    AfterSnoc(v, [], Store(w));
    AfterSnoc(v, [Store(w)], Notify);
    assert [] + [Store(w)] == [Store(w)] && [Store(w)] + [Notify] == [Store(w), Notify];
  }

  lemma StoreEndsUpdate(w: U16)
    ensures PhaseAfter(Looked, [Store(w), Notify]) == Some(Resting)
  {
    PhaseConcat(Looked, [Store(w)], [Notify]);
    assert [Store(w)] + [Notify] == [Store(w), Notify];
    assert [Store(w)][..0] == [] && [Notify][..0] == [];
  }

  lemma StaleLookForgets(v: World, w: U16)
    requires v.sock.sndWnd == 0 && v.sock.waitSend == AWAKE && v.seen != 0 && w != 0
    ensures Forgets(v, Looked, [[], [Store(w), Notify]])
  {
    var slices := [[], [Store(w), Notify]];
    StoreThenNotify(WithWait(v, SLEEPING), w);
    StoreEndsUpdate(w);
    BetweenOne(slices, 0);
    BetweenOne(slices, 1);
    BetweenSplit(slices, 0, 1, 2);
    assert [] + [Store(w), Notify] == [Store(w), Notify];
    assert Preempt(v, slices, 0) == (v, 1);
    assert Blocked(WithWait(v, SLEEPING), slices, 1) == (WithWindow(WithWait(v, SLEEPING), w), 2, Asleep);
  }
}
