/** One TCP socket in memory: the handlers as methods that update its fields in place, and the
    segmenting send loop. */
module TcpSock {
  import opened Common
  import opened RingBuffers
  import opened TcpState
  import opened SendLoop
  import opened SendCalls
  import SynchWait

  class TcpSock {
    var state: State
    var sndNxt: U32
    var rcvNxt: U32
    var sndWnd: U16
    var rcvWnd: U16
    const rcvBuf: RingBuffer
    const waitSend: SynchWait.SynchWait

    ghost predicate Valid()
      reads this, rcvBuf
    {
      rcvBuf.Valid() && rcvBuf.size <= 0x1_0000
    }

    ghost function Value(): Sock
      requires Valid()
      reads this, rcvBuf, rcvBuf.buf, waitSend
    {
      Sock(state, sndNxt, rcvNxt, sndWnd, rcvWnd, rcvBuf.Contents(), rcvBuf.size, waitSend.Value())
    }

    /** A fresh socket with initial sequence number iss. */
    constructor (iss: U32)
      ensures Valid() && fresh(rcvBuf) && fresh(rcvBuf.buf) && fresh(waitSend)
      ensures Value() == Sock(Closed, iss, 0, 0, DEFAULT_WINDOW, [], DEFAULT_WINDOW, AWAKE)
    {
      sndNxt, rcvNxt, sndWnd := iss, 0, 0;
      state, rcvWnd := Closed, DEFAULT_WINDOW;
      rcvBuf := new RingBuffer(DEFAULT_WINDOW);
      waitSend := new SynchWait.SynchWait();
    }

    constructor Inherit(parent: TcpSock)
      requires parent.Valid()
      ensures rcvBuf == parent.rcvBuf && waitSend == parent.waitSend && Valid() && Value() == parent.Value()
    {
      state, sndNxt, rcvNxt := parent.state, parent.sndNxt, parent.rcvNxt;
      sndWnd, rcvWnd := parent.sndWnd, parent.rcvWnd;
      rcvBuf, waitSend := parent.rcvBuf, parent.waitSend;
    }

    method SendControl(flags: Flags) returns (g: Segment)
      requires Valid()
      modifies this`sndNxt
      ensures Valid() && (Value(), g) == Control(old(Value()), flags)
    {
      g := Segment(flags, sndNxt, rcvNxt, rcvWnd, []);
      if flags.syn || flags.fin {
        sndNxt := Plus(sndNxt, 1);
      }
    }

    method AdoptWindow(wnd: U16)
      requires Valid()
      modifies this`sndWnd, waitSend
      ensures Valid() && Value() == UpdateWindow(old(Value()), wnd)
    {
      var before := sndWnd;
      sndWnd := wnd;
      if before == 0 {
        var _ := waitSend.WakeUp();
      }
    }

    method ConnectTo() returns (g: Segment)
      requires Valid()
      modifies this
      ensures Valid() && (Value(), g) == Connect(old(Value()))
    {
      rcvNxt := 0;
      state := SynSent;
      g := SendControl(SYN);
    }

    /** The listening socket itself also moves to SYN_RECV, before the child copies it. */
    method OnListen(g: Segment) returns (child: TcpSock, reply: Segment)
      requires Valid() && state == Listen
      modifies this`state
      ensures fresh(child) && child.rcvBuf == rcvBuf && child.waitSend == waitSend && child.Valid()
      ensures (child.Value(), reply) == Spawn(old(Value()), g)
      ensures Valid() && Value() == old(Value()).(state := SynRecv)
    {
      state := SynRecv;
      child := new TcpSock.Inherit(this);
      child.rcvNxt := Plus(g.seqNo, 1);
      reply := child.SendControl(SYN_ACK);
    }

    method OnFin(g: Segment, next: State) returns (out: seq<Segment>)
      requires Valid()
      modifies this
      ensures Valid() && (Value(), out) == Finished(old(Value()), g, next)
    {
      rcvNxt := Plus(g.seqNo, 1);
      var reply := SendControl(ACK);
      state := next;
      out := [reply];
    }

    method OnPush(g: Segment)
      requires Valid() && 0 < |g.payload| <= rcvBuf.Free()
      modifies this, rcvBuf, rcvBuf.buf, waitSend
      ensures Valid() && Value() == Pushed(old(Value()), g)
    {
      rcvNxt := Plus(g.seqNo, 1);
      rcvBuf.Write(g.payload);
      AdoptWindow(g.rwnd);
    }

    method Receive(g: Segment) returns (out: seq<Segment>)
      requires Valid() && state != Listen && Fits(Value(), g)
      modifies this, rcvBuf, rcvBuf.buf, waitSend
      ensures Valid() && (Value(), out) == Process(old(Value()), g)
    {
      out := [];
      match state {
        case Closed =>
          out := [Segment(RST_ACK, 0, SegEnd(g), 0, [])];
        case SynSent =>
          if g.flags == SYN_ACK {
            rcvNxt := Plus(g.seqNo, 1);
            var reply := SendControl(ACK);
            AdoptWindow(g.rwnd);
            state := Established;
            out := [reply];
          }
        case SynRecv =>
          AdoptWindow(g.rwnd);
          state := Established;
        case Established =>
          if g.flags.fin {
            out := OnFin(g, CloseWait);
          }
          if g.flags.psh {
            OnPush(g);
          }
        case FinWait1 =>
          if g.flags.ack {
            state := FinWait2;
          }
        case FinWait2 =>
          if g.flags.fin {
            out := OnFin(g, TimeWait);
          }
        case LastAck =>
          if g.flags.ack {
            state := Closed;
          }
        case _ =>
      }
    }

    method CloseSock() returns (out: seq<Segment>)
      requires Valid()
      modifies this
      ensures Valid() && (Value(), out) == Close(old(Value()))
    {
      out := [];
      match state {
        case Listen =>
          state := Closed;
        case Established =>
          state := FinWait1;
          var g := SendControl(FIN_ACK);
          out := [g];
        case CloseWait =>
          state := LastAck;
          var g := SendControl(FIN_ACK);
          out := [g];
        case _ =>
      }
    }

    /** Afterwards the advertised window is exactly the room left in the buffer. */
    method Read(n: nat) returns (data: seq<Byte>)
      requires Valid()
      modifies this, rcvBuf
      ensures Valid() && (Value(), data) == Take(old(Value()), n)
    {
      data := [];
      if !rcvBuf.Empty() {
        var len;
        len, data := rcvBuf.Read(n);
        rcvWnd := rcvBuf.Free();
      }
    }

    // ---- sending

    ghost function At(seen: U16): World
      requires Valid()
      reads this, rcvBuf, rcvBuf.buf, waitSend
    {
      World(Value(), seen)
    }

    /** One access of the receiving thread, which holds in `last` the window it saw when it last looked. */
    method Happening(e: Event, last: U16) returns (seen: U16, signals: bool)
      requires Valid()
      modifies this`sndWnd, waitSend
      ensures Valid() && (At(seen), signals) == Happen(old(At(last)), e)
    {
      seen, signals := last, false;
      match e {
        case Look =>
          seen := sndWnd;
        case Store(w) =>
          sndWnd := w;
        case Notify =>
          if last == 0 {
            signals := waitSend.WakeUp();
          }
        case Death =>
          signals := waitSend.WaitExit();
      }
    }

    /** The receiving thread runs for one slice. */
    method Slice(es: seq<Event>, last: U16) returns (seen: U16, signals: bool)
      requires Valid()
      modifies this`sndWnd, waitSend
      ensures Valid() && (At(seen), signals) == After(old(At(last)), es)
    {
      seen, signals := last, false;
      for i := 0 to |es|
        invariant (At(seen), signals) == After(old(At(last)), es[..i])
      {
        var more;
        seen, more := Happening(es[i], seen);
        signals := signals || more;
        assert es[..i + 1][..i] == es[..i];
      }
      assert es[..|es|] == es;
    }

    method Yield(slices: Schedule, k: nat, last: U16) returns (next: nat, seen: U16)
      requires Valid() && k <= |slices|
      modifies this`sndWnd, waitSend
      ensures Valid() && (At(seen), next) == Preempt(old(At(last)), slices, k)
    {
      next, seen := k, last;
      if k < |slices| {
        var signals;
        seen, signals := Slice(slices[k], last);
        next := k + 1;
      }
    }

    /** The end of sleep_on, after it unlocked. */
    method LeaveSleep(slices: Schedule, k: nat, last: U16) returns (next: nat, seen: U16, r: SendResult)
      requires Valid() && k <= |slices|
      modifies this`sndWnd, waitSend
      ensures Valid() && (At(seen), next, r) == Return(old(At(last)), slices, k)
    {
      next, seen := Yield(slices, k, last);
      r := if waitSend.dead then Failed else Sent;
    }

    /** Blocked on the condition, until a slice signals it. */
    method Wait(slices: Schedule, k: nat, last: U16) returns (next: nat, seen: U16, r: SendResult)
      requires Valid() && k <= |slices|
      modifies this`sndWnd, waitSend
      ensures Valid() && (At(seen), next, r) == Blocked(old(At(last)), slices, k)
    {
      next, seen, r := k, last, Asleep;
      while next < |slices|
        invariant next <= |slices| && r == Asleep
        invariant Blocked(At(seen), slices, next) == Blocked(old(At(last)), slices, k)
      {
        var signalled;
        seen, signalled := Slice(slices[next], seen);
        next := next + 1;
        if signalled {
          waitSend.EndSleep();
          next, seen, r := LeaveSleep(slices, next, seen);
          return;
        }
      }
    }

    /** At a zero window, sleep_on: it returns at once on a pending notification. */
    method AwaitWindow(slices: Schedule, k: nat, last: U16) returns (next: nat, seen: U16, r: SendResult)
      requires Valid() && k <= |slices|
      modifies this`sndWnd, waitSend
      ensures Valid() && (At(seen), next, r) == Await(old(At(last)), slices, k)
    {
      next, seen, r := k, last, Sent;
      if sndWnd == 0 {
        next, seen := Yield(slices, k, last);
        var blocks := waitSend.BeginSleep();
        if blocks {
          next, seen, r := Wait(slices, next, seen);
        } else {
          next, seen, r := LeaveSleep(slices, next, seen);
        }
      }
    }

    /** The window that is lowered is the one read before the preemption. */
    method SendPacket(data: seq<Byte>, slices: Schedule, k: nat, last: U16)
      returns (g: Segment, next: nat, seen: U16)
      requires Valid() && k <= |slices|
      modifies this`sndNxt, this`sndWnd, waitSend
      ensures Valid() && (At(seen), next, g) == Emit(old(At(last)), data, slices, k)
    {
      g := Segment(PSH_ACK, sndNxt, rcvNxt, rcvWnd, data);
      sndNxt := Plus(sndNxt, |data|);
      var before := sndWnd;
      next, seen := Yield(slices, k, last);
      sndWnd := (before - |data|) % 0x1_0000;
    }

    /** The size of a piece: the window is compared with the limit, and read again if it is no larger. */
    method CutPiece(rest: nat, slices: Schedule, k: nat, last: U16) returns (size: nat, next: nat, seen: U16)
      requires Valid() && k <= |slices|
      modifies this`sndWnd, waitSend
      ensures Valid() && (At(seen), next) == ReadAgain(old(At(last)), rest, slices, k)
      ensures size == if Limit(rest) < old(sndWnd) then Limit(rest) else sndWnd
    {
      next, seen := k, last;
      size := Min(MAX_SEGMENT, rest);
      if size >= sndWnd {
        next, seen := Yield(slices, k, last);
        size := sndWnd;
      }
    }

    /** One turn of the loop.  The original copies a piece that is too long from past the end of the data. */
    method SendPiece(rest: seq<Byte>, slices: Schedule, k: nat, last: U16)
      returns (r: SendResult, next: nat, seen: U16, g: Segment, ghost step: Step)
      requires Valid() && k <= |slices| && rest != []
      modifies this`sndNxt, this`sndWnd, waitSend
      ensures Valid() && step == OneTurn(old(At(last)), rest, slices, k)
      ensures |g.payload| <= |rest| && k <= next <= |slices| && (r == Sent && k < |slices| ==> k < next)
      ensures if r == Overran then step.Overrun? && step.end == At(seen)
              else if r != Sent then step == Stopped(At(seen), r)
              else step.Emitted? && step.end == At(seen) && step.next == next && step.turn.segment == g
    {
      next, seen := Yield(slices, k, last);
      g := Segment(ACK, 0, 0, 0, []);
      next, seen, r := AwaitWindow(slices, next, seen);
      if r == Sent {
        next, seen := Yield(slices, next, seen);
        var size;
        size, next, seen := CutPiece(|rest|, slices, next, seen);
        if size > |rest| {
          r := Overran;
        } else {
          next, seen := Yield(slices, next, seen);
          g, next, seen := SendPacket(rest[..size], slices, next, seen);
        }
      }
      step := OneTurn(old(At(last)), rest, slices, k);
    }

    /** One iteration: what is left of the whole call shrinks by one turn. */
    method Iterate(buf: seq<Byte>, wlen: nat, slices: Schedule, k: nat, last: U16, ghost turns: seq<Turn>)
      returns (r: SendResult, next: nat, seen: U16, g: Segment, ghost more: seq<Turn>)
      requires Valid() && wlen < |buf| && k <= |slices|
      modifies this`sndNxt, this`sndWnd, waitSend
      ensures Valid() && |g.payload| <= |buf| - wlen && k <= next <= |slices|
      ensures Continued(turns, SendRun(old(At(last)), buf, wlen, slices, k)) ==
        if r == Sent then Continued(more, SendRun(At(seen), buf, wlen + |g.payload|, slices, next))
        else Outcome(At(seen), r, wlen, turns)
      ensures r == Sent ==>
        && Segments(more) == Segments(turns) + [g] && (k < |slices| ==> k < next)
        && (next == k ==> g.payload != [] || Pending(At(seen)) < Pending(old(At(last))))
    {
      hide OneTurn;
      ghost var v := At(last);
      ghost var step;
      r, next, seen, g, step := SendPiece(buf[wlen..], slices, k, last);
      more := if r == Sent then turns + [step.turn] else turns;
      TurnMakesProgress(v, buf[wlen..], slices, k, step);
      OneTurnLess(turns, v, buf, wlen, slices, k, step);
    }

    /** Sends buf in pieces no larger than the window allowed when each was cut, while the receiving
        thread runs as the schedule says. */
    method SendData(buf: seq<Byte>, slices: Schedule, last: U16)
      returns (r: SendResult, wlen: nat, out: seq<Segment>, seen: U16, ghost turns: seq<Turn>)
      requires Valid()
      modifies this`sndNxt, this`sndWnd, waitSend
      ensures Valid() && Outcome(At(seen), r, wlen, turns) == SendRun(old(At(last)), buf, 0, slices, 0)
      ensures out == Segments(turns)
    {
      hide OneTurn;
      ghost var whole := SendRun(At(last), buf, 0, slices, 0);
      wlen, out, turns, r, seen := 0, [], [], Sent, last;
      var k := 0;
      while wlen < |buf|
        invariant wlen <= |buf| && k <= |slices| && r == Sent && out == Segments(turns)
        invariant whole == Continued(turns, SendRun(At(seen), buf, wlen, slices, k))
        decreases |slices| - k, |buf| - wlen, Pending(At(seen))
      {
        var g;
        ghost var more;
        r, k, seen, g, more := Iterate(buf, wlen, slices, k, seen, turns);
        if r != Sent {
          break;
        }
        out, turns := out + [g], more;
        wlen := wlen + |g.payload|;
      }
      assert whole == Outcome(At(seen), r, wlen, turns);
    }

    /** It returns the length asked for, however the sending ended. */
    method Write(buf: seq<Byte>, slices: Schedule, last: U16)
      returns (len: nat, out: seq<Segment>, seen: U16, ghost o: Outcome)
      requires Valid()
      modifies this`sndNxt, this`sndWnd, waitSend
      ensures Valid() && len == |buf| && o.end == At(seen) && out == Segments(o.turns)
      ensures !old(waitSend.sleep) ==> Good(old(At(last)), buf, 0, o)
    {
      ghost var v := At(last);
      var r, wlen;
      ghost var turns;
      r, wlen, out, seen, turns := SendData(buf, slices, last);
      len, o := |buf|, Outcome(At(seen), r, wlen, turns);
      if !v.sock.waitSend.sleep {
        SendRunMeaning(v, buf, 0, slices, 0);
      }
    }
  }
}
