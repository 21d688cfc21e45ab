/** What each handler of a TCP socket computes, on the value of the socket. */
module TcpState {
  import opened Common
  import opened RingBuffers
  import SynchWait

  const DEFAULT_WINDOW: U16 := 65535
  /** Frame length 1500 less the Ethernet, IP and TCP headers. */
  const MAX_SEGMENT := 1446

  datatype State =
    | Closed | Listen | SynRecv | SynSent | Established | CloseWait | LastAck | FinWait1 | FinWait2 | TimeWait

  datatype Flags = Flags(fin: bool, syn: bool, rst: bool, psh: bool, ack: bool)
  const SYN := Flags(false, true, false, false, false)
  const SYN_ACK := Flags(false, true, false, false, true)
  const ACK := Flags(false, false, false, false, true)
  const PSH_ACK := Flags(false, false, false, true, true)
  const FIN_ACK := Flags(true, false, false, false, true)
  const RST_ACK := Flags(false, false, true, false, true)

  datatype Segment = Segment(flags: Flags, seqNo: U32, ack: U32, rwnd: U16, payload: seq<Byte>)

  /** The value of a socket; `queue` is the content of its receive buffer of `size` slots, and
      `waitSend` the flags of the structure a sender sleeps on. */
  datatype Sock = Sock(state: State, sndNxt: U32, rcvNxt: U32, sndWnd: U16, rcvWnd: U16,
                       queue: seq<Byte>, size: int, waitSend: SynchWait.Flags)

  const AWAKE := SynchWait.Flags(false, false, false)

  function Plus(a: U32, n: nat): U32 { (a + n) % 0x1_0000_0000 }

  function SegEnd(g: Segment): U32 {
    Plus(g.seqNo, |g.payload| + if g.flags.syn || g.flags.fin then 1 else 0)
  }

  // ---- what the handlers compute

  function Control(s: Sock, flags: Flags): (Sock, Segment) {
    (s.(sndNxt := if flags.syn || flags.fin then Plus(s.sndNxt, 1) else s.sndNxt),
     Segment(flags, s.sndNxt, s.rcvNxt, s.rcvWnd, []))
  }

  /** The 16-bit window wraps if it was lowered below the size of a piece already cut. */
  function Transmit(s: Sock, data: seq<Byte>): (Sock, Segment) {
    (s.(sndNxt := Plus(s.sndNxt, |data|), sndWnd := (s.sndWnd - |data|) % 0x1_0000),
     Segment(PSH_ACK, s.sndNxt, s.rcvNxt, s.rcvWnd, data))
  }

  /** A window that was zero wakes the sender, whether or not it sleeps: the notification waits. */
  function UpdateWindow(s: Sock, wnd: U16): Sock {
    s.(sndWnd := wnd, waitSend := if s.sndWnd == 0 then SynchWait.Wake(s.waitSend).0 else s.waitSend)
  }

  function Connect(s: Sock): (Sock, Segment) { Control(s.(rcvNxt := 0, state := SynSent), SYN) }

  /** A listening socket answers through a child that inherits all its fields. */
  function Spawn(s: Sock, g: Segment): (Sock, Segment) {
    Control(s.(state := SynRecv, rcvNxt := Plus(g.seqNo, 1)), SYN_ACK)
  }

  /** The receive buffer's assertion, for the one case that writes to it. */
  predicate Fits(s: Sock, g: Segment) {
    s.state.Established? && g.flags.psh ==> 0 < |g.payload| <= s.size - |s.queue| - 1
  }

  function Process(s: Sock, g: Segment): (Sock, seq<Segment>) {
    match s.state
    case Closed => (s, [Segment(RST_ACK, 0, SegEnd(g), 0, [])])
    case Listen => var (t, reply) := Spawn(s, g); (t, [reply])
    case SynSent =>
      if g.flags == SYN_ACK then
        var (t, reply) := Control(s.(rcvNxt := Plus(g.seqNo, 1)), ACK);
        (UpdateWindow(t, g.rwnd).(state := Established), [reply])
      else (s, [])
    case SynRecv => (UpdateWindow(s, g.rwnd).(state := Established), [])
    case Established =>
      var (t, out) := if g.flags.fin then Finished(s, g, CloseWait) else (s, []);
      (if g.flags.psh then Pushed(t, g) else t, out)
    case FinWait1 => (if g.flags.ack then s.(state := FinWait2) else s, [])
    case FinWait2 => if g.flags.fin then Finished(s, g, TimeWait) else (s, [])
    case LastAck => (if g.flags.ack then s.(state := Closed) else s, [])
    case CloseWait => (s, [])
    case TimeWait => (s, [])
  }

  /** The payload joins the buffer and the advertised window is adopted. */
  function Pushed(s: Sock, g: Segment): Sock {
    UpdateWindow(s.(rcvNxt := Plus(g.seqNo, 1), queue := s.queue + g.payload), g.rwnd)
  }

  /** Acknowledge the peer's FIN and move on. */
  function Finished(s: Sock, g: Segment, next: State): (Sock, seq<Segment>) {
    var (t, reply) := Control(s.(rcvNxt := Plus(g.seqNo, 1)), ACK);
    (t.(state := next), [reply])
  }

  function Close(s: Sock): (Sock, seq<Segment>) {
    match s.state
    case Listen => (s.(state := Closed), [])
    case Established => var (t, g) := Control(s.(state := FinWait1), FIN_ACK); (t, [g])
    case CloseWait => var (t, g) := Control(s.(state := LastAck), FIN_ACK); (t, [g])
    case _ => (s, [])
  }

  function Take(s: Sock, n: nat): (Sock, seq<Byte>) {
    if s.queue == [] then (s, [])
    else
      var k := Min(|s.queue|, n);
      var left := s.queue[k..];
      var room := s.size - |left| - 1;
      (s.(queue := left, rcvWnd := if 0 <= room < 0x1_0000 then room else s.rcvWnd), s.queue[..k])
  }

  // ---- streams of segments

  function Payloads(gs: seq<Segment>): (p: seq<Byte>) {
    if gs == [] then [] else Payloads(gs[..|gs| - 1]) + gs[|gs| - 1].payload
  }

  lemma {:induction false} PayloadsCons(q: seq<Segment>)
    requires q != []
    ensures Payloads(q) == q[0].payload + Payloads(q[1..])
  {
    if |q| == 1 {
      assert q[..0] == [] && q[1..] == [];
    } else {
      var front, tail, last := q[..|q| - 1], q[1..], q[|q| - 1].payload;
      PayloadsCons(front);
      assert front[1..] == tail[..|tail| - 1];
      assert Payloads(tail) == Payloads(front[1..]) + last;
      assert Payloads(q) == q[0].payload + Payloads(front[1..]) + last;
    }
  }

  lemma PlusPlus(a: U32, m: nat, n: nat)
    ensures Plus(Plus(a, m), n) == Plus(a, m + n)
  {
  }
}
