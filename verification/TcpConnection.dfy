/** A client and a server socket joined by two lossless in-order channels.  One inductive
    invariant covers the handshake, the data in both directions and the orderly close. */
module TcpConnection {
  import opened Common
  import opened RingBuffers
  import opened TcpState

  /** The last four fields are history: the bytes each side has sent and has read so far. */
  datatype Conn = Conn(client: Sock, server: Sock, c2s: seq<Segment>, s2c: seq<Segment>,
                       clientSent: seq<Byte>, clientRead: seq<Byte>, serverSent: seq<Byte>, serverRead: seq<Byte>)

  // ---- steps

  ghost predicate Init(k: Conn) {
    && k.client.state == Closed && k.server.state == Listen && k.client.queue == k.server.queue == []
    && k.client.sndWnd == k.server.sndWnd == 0 && k.client.waitSend == k.server.waitSend == AWAKE
    && k.c2s == k.s2c == [] && k.clientSent == k.clientRead == k.serverSent == k.serverRead == []
  }

  /** The data of one segment.  The piece may be empty, may exceed the window if that was lowered after the
      piece was cut, and may exceed the frame if the window was raised while it was cut. */
  ghost predicate Sendable(data: seq<Byte>) { |data| < 0x1_0000 }

  ghost predicate ClientConnects(k: Conn, k': Conn) {
    && k.client.state == Closed && k.server.state == Listen && k.c2s == []
    && var (t, g) := Connect(k.client); k' == k.(client := t, c2s := k.c2s + [g])
  }

  ghost predicate ClientWrites(k: Conn, k': Conn, data: seq<Byte>) {
    && k.client.state == Established && Sendable(data)
    && var (t, g) := Transmit(k.client, data);
       k' == k.(client := t, c2s := k.c2s + [g], clientSent := k.clientSent + data)
  }

  ghost predicate ServerWrites(k: Conn, k': Conn, data: seq<Byte>) {
    && k.server.state in {Established, CloseWait} && Sendable(data)
    && var (t, g) := Transmit(k.server, data);
       k' == k.(server := t, s2c := k.s2c + [g], serverSent := k.serverSent + data)
  }

  ghost predicate ClientReads(k: Conn, k': Conn, n: nat) {
    var (t, data) := Take(k.client, n); k' == k.(client := t, clientRead := k.clientRead + data)
  }

  ghost predicate ServerReads(k: Conn, k': Conn, n: nat) {
    var (t, data) := Take(k.server, n); k' == k.(server := t, serverRead := k.serverRead + data)
  }

  /** The client closes first. */
  ghost predicate ClientCloses(k: Conn, k': Conn) {
    && k.client.state == Established
    && var (t, out) := Close(k.client); k' == k.(client := t, c2s := k.c2s + out)
  }

  ghost predicate ServerCloses(k: Conn, k': Conn) {
    && k.server.state == CloseWait
    && var (t, out) := Close(k.server); k' == k.(server := t, s2c := k.s2c + out)
  }

  ghost predicate ServerReceives(k: Conn, k': Conn) {
    && k.c2s != [] && Fits(k.server, k.c2s[0])
    && var (t, out) := Process(k.server, k.c2s[0]); k' == k.(server := t, c2s := k.c2s[1..], s2c := k.s2c + out)
  }

  ghost predicate ClientReceives(k: Conn, k': Conn) {
    && k.s2c != [] && Fits(k.client, k.s2c[0])
    && var (t, out) := Process(k.client, k.s2c[0]); k' == k.(client := t, s2c := k.s2c[1..], c2s := k.c2s + out)
  }

  /** The TIME_WAIT timer fires. */
  ghost predicate ClientExpires(k: Conn, k': Conn) {
    k.client.state == TimeWait && k' == k.(client := k.client.(state := Closed))
  }

  ghost predicate Next(k: Conn, k': Conn) {
    || ClientConnects(k, k')
    || (exists data :: ClientWrites(k, k', data))
    || (exists data :: ServerWrites(k, k', data))
    || (exists n :: ClientReads(k, k', n))
    || (exists n :: ServerReads(k, k', n))
    || ClientCloses(k, k')
    || ServerCloses(k, k')
    || ServerReceives(k, k')
    || ClientReceives(k, k')
    || ClientExpires(k, k')
  }

  ghost predicate Run(ks: seq<Conn>) {
    |ks| > 0 && Init(ks[0]) && forall i | 0 <= i < |ks| - 1 :: Next(ks[i], ks[i + 1])
  }

  // ---- what the channels hold in each phase

  ghost predicate Data(g: Segment) { g.flags == PSH_ACK }

  ghost predicate AllData(q: seq<Segment>) { forall g | g in q :: Data(g) }

  /** A bare control segment; one carrying SYN or FIN is the last thing numbered before `next`. */
  ghost predicate Bare(g: Segment, flags: Flags, next: U32) {
    g.flags == flags && g.payload == [] && (flags.syn || flags.fin ==> Plus(g.seqNo, 1) == next)
  }

  ghost predicate DataThenFin(q: seq<Segment>, next: U32) {
    |q| > 0 && AllData(q[..|q| - 1]) && Bare(q[|q| - 1], FIN_ACK, next)
  }

  /** Data, or data and a final FIN, as the client's state says. */
  ghost predicate ClientStream(k: Conn, q: seq<Segment>) {
    if k.client.state == Established then AllData(q) else DataThenFin(q, k.client.sndNxt)
  }

  /** What the server has sent since it saw the client's FIN. */
  ghost predicate Acks(q: seq<Segment>) { forall g | g in q :: Data(g) || (g.flags == ACK && g.payload == []) }

  ghost predicate Synchronised(k: Conn) {
    k.client.rcvNxt == k.server.sndNxt && k.server.rcvNxt == k.client.sndNxt
  }

  ghost predicate Phase(k: Conn) {
    var c, s := k.client.state, k.server.state;
    match s
    case Listen =>
      || (c == Closed && k.c2s == k.s2c == [])
      || (c == SynSent && |k.c2s| == 1 && Bare(k.c2s[0], SYN, k.client.sndNxt) && k.s2c == [])
    case SynRecv =>
      || (c == SynSent && k.c2s == [] && |k.s2c| == 1 && Bare(k.s2c[0], SYN_ACK, k.server.sndNxt)
          && k.server.rcvNxt == k.client.sndNxt)
      || (c in {Established, FinWait1} && |k.c2s| > 0 && Bare(k.c2s[0], ACK, 0) && ClientStream(k, k.c2s[1..])
          && k.s2c == [] && k.client.rcvNxt == k.server.sndNxt)
    case Established =>
      c in {Established, FinWait1, FinWait2} && ClientStream(k, k.c2s) && AllData(k.s2c)
    case CloseWait =>
      && c in {FinWait1, FinWait2} && k.c2s == [] && Acks(k.s2c) && (c == FinWait1 ==> k.s2c != [])
      && k.server.rcvNxt == k.client.sndNxt
    case LastAck =>
      && k.server.rcvNxt == k.client.sndNxt
      && (|| (&& c in {FinWait1, FinWait2} && k.c2s == [] && |k.s2c| > 0 && Acks(k.s2c[..|k.s2c| - 1])
              && Bare(k.s2c[|k.s2c| - 1], FIN_ACK, k.server.sndNxt) && (c == FinWait1 ==> |k.s2c| > 1))
          || (c in {TimeWait, Closed} && |k.c2s| == 1 && Bare(k.c2s[0], ACK, 0) && k.s2c == [] && Synchronised(k)))
    case Closed =>
      c in {TimeWait, Closed} && k.c2s == k.s2c == [] && Synchronised(k)
    case _ => false
  }

  /** Client to server nothing is lost; server to client nothing is lost until the client closes,
      and what the client holds is always the beginning of what was sent. */
  ghost predicate Streams(k: Conn) {
    && k.serverRead + k.server.queue + Payloads(k.c2s) == k.clientSent
    && k.clientRead + k.client.queue <= k.serverSent
    && (k.client.state in {SynSent, Established} ==> k.clientRead + k.client.queue + Payloads(k.s2c) == k.serverSent)
    && (k.server.state == Listen ==> k.client.queue == k.clientRead == k.serverSent == [])
  }

  ghost predicate Inv(k: Conn) { Phase(k) && Streams(k) }

  // ---- payload bookkeeping

  lemma PayloadsSnoc(q: seq<Segment>, g: Segment)
    ensures Payloads(q + [g]) == Payloads(q) + g.payload
  {
    assert (q + [g])[..|q|] == q;
  }

  lemma StreamConcat(read: seq<Byte>, queue: seq<Byte>, more: seq<Byte>, k: nat)
    requires k <= |queue|
    ensures (read + queue[..k]) + queue[k..] + more == read + queue + more
    ensures (read + queue[..k]) + queue[k..] == read + queue
  {
    assert queue == queue[..k] + queue[k..];
  }

  // ---- each step keeps the invariant

  lemma ConnectKeeps(k: Conn, k': Conn)
    requires Inv(k) && ClientConnects(k, k')
    ensures Inv(k')
  {
    PayloadsSnoc(k.c2s, k'.c2s[0]);
  }

  lemma ClientWriteKeepsStreams(k: Conn, k': Conn, data: seq<Byte>)
    requires Inv(k) && ClientWrites(k, k', data)
    ensures Streams(k')
  {
    hide Phase, Plus, Payloads;
    PayloadsSnoc(k.c2s, Transmit(k.client, data).1);
    assert (k.serverRead + k.server.queue) + (Payloads(k.c2s) + data) == k.clientSent + data;
  }

  lemma ClientWriteKeepsPhase(k: Conn, k': Conn, data: seq<Byte>)
    requires Phase(k) && ClientWrites(k, k', data)
    ensures Phase(k')
  {
    hide Plus;
    assert k.server.state == SynRecv ==> k'.c2s[1..] == k.c2s[1..] + [Transmit(k.client, data).1];
  }

  lemma ClientWriteKeeps(k: Conn, k': Conn, data: seq<Byte>)
    requires Inv(k) && ClientWrites(k, k', data)
    ensures Inv(k')
  {
    hide Phase, Streams, Transmit;
    ClientWriteKeepsStreams(k, k', data);
    ClientWriteKeepsPhase(k, k', data);
  }

  lemma ServerWriteKeeps(k: Conn, k': Conn, data: seq<Byte>)
    requires Inv(k) && ServerWrites(k, k', data)
    ensures Inv(k')
  {
    var g := Transmit(k.server, data).1;
    PayloadsSnoc(k.s2c, g);
    assert (k.clientRead + k.client.queue) + (Payloads(k.s2c) + data)
        == (k.clientRead + k.client.queue + Payloads(k.s2c)) + data;
    assert k.serverSent <= k'.serverSent;
  }

  lemma ReadKeeps(k: Conn, k': Conn, n: nat)
    requires Inv(k) && (ClientReads(k, k', n) || ServerReads(k, k', n))
    ensures Inv(k')
  {
    if ClientReads(k, k', n) && k.client.queue != [] {
      StreamConcat(k.clientRead, k.client.queue, Payloads(k.s2c), Min(|k.client.queue|, n));
    } else if k.server.queue != [] && ServerReads(k, k', n) {
      StreamConcat(k.serverRead, k.server.queue, Payloads(k.c2s), Min(|k.server.queue|, n));
    } else {
      assert k.clientRead + [] == k.clientRead && k.serverRead + [] == k.serverRead;
    }
  }

  /** What the client's close does to the connection. */
  ghost predicate FinQueued(k: Conn, k': Conn, g: Segment) {
    && k.client.state == Established && k'.client.state == FinWait1
    && Bare(g, FIN_ACK, k'.client.sndNxt) && k'.c2s == k.c2s + [g] && k'.s2c == k.s2c
    && k'.client.queue == k.client.queue && k'.client.rcvNxt == k.client.rcvNxt && k'.server == k.server
    && k'.clientSent == k.clientSent && k'.clientRead == k.clientRead
    && k'.serverSent == k.serverSent && k'.serverRead == k.serverRead
  }

  lemma ClientCloseQueuesFin(k: Conn, k': Conn)
    requires ClientCloses(k, k')
    ensures FinQueued(k, k', Close(k.client).1[0])
  {
  }

  lemma FinKeepsStreams(k: Conn, k': Conn, g: Segment)
    requires Inv(k) && FinQueued(k, k', g)
    ensures Streams(k')
  {
    hide Phase, Plus, Payloads;
    PayloadsSnoc(k.c2s, g);
  }

  lemma FinKeepsPhase(k: Conn, k': Conn, g: Segment)
    requires Phase(k) && FinQueued(k, k', g)
    ensures Phase(k')
  {
    hide Plus, DataThenFin, AllData, Acks, Bare;
    if k.server.state == SynRecv {
      FinSnoc(k.c2s[1..], g, k'.client.sndNxt);
      assert k'.c2s[1..] == k.c2s[1..] + [g];
    } else {
      FinSnoc(k.c2s, g, k'.client.sndNxt);
    }
  }

  lemma ClientCloseKeeps(k: Conn, k': Conn, g: Segment)
    requires Inv(k) && FinQueued(k, k', g)
    ensures Inv(k')
  {
    hide Phase, Streams;
    FinKeepsStreams(k, k', g);
    FinKeepsPhase(k, k', g);
  }

  lemma FinSnoc(q: seq<Segment>, g: Segment, next: U32)
    requires AllData(q) && Bare(g, FIN_ACK, next)
    ensures DataThenFin(q + [g], next)
  {
    assert (q + [g])[..|q|] == q;
  }

  lemma ServerFinKeepsStreams(k: Conn, k': Conn)
    requires Inv(k) && ServerCloses(k, k')
    ensures Streams(k')
  {
    hide Phase, Plus, Payloads;
    PayloadsSnoc(k.s2c, Close(k.server).1[0]);
  }

  lemma ServerFinMovesPhase(k: Conn, k': Conn)
    requires Phase(k) && ServerCloses(k, k')
    ensures Phase(k')
  {
    hide Plus;
    assert k'.s2c[..|k.s2c|] == k.s2c;
  }

  lemma ServerCloseKeeps(k: Conn, k': Conn)
    requires Inv(k) && ServerCloses(k, k')
    ensures Inv(k')
  {
    hide Phase, Streams, Close;
    ServerFinKeepsStreams(k, k');
    ServerFinMovesPhase(k, k');
  }

  /** Delivering the head of a channel moves its payload from the channel to the buffer. */
  lemma Delivered(read: seq<Byte>, queue: seq<Byte>, queue': seq<Byte>, q: seq<Segment>, total: seq<Byte>)
    requires q != [] && queue' == queue + q[0].payload && read + queue + Payloads(q) == total
    ensures read + queue' + Payloads(q[1..]) == total
  {
    PayloadsCons(q);
    assert read + queue' + Payloads(q[1..]) == read + queue + (q[0].payload + Payloads(q[1..]));
  }

  lemma RepliesAreBare(s: Sock, g: Segment, q: seq<Segment>)
    ensures Payloads(q + Process(s, g).1) == Payloads(q)
  {
    var out := Process(s, g).1;
    if out == [] {
      assert q + out == q;
    } else {
      assert out == [out[0]] && out[0].payload == [];
      PayloadsSnoc(q, out[0]);
    }
  }

  lemma ServerTakesPayload(k: Conn)
    requires Phase(k) && k.c2s != []
    ensures Process(k.server, k.c2s[0]).0.queue == k.server.queue + k.c2s[0].payload
  {
    var g := k.c2s[0];
    assert g in k.c2s;
    if |k.c2s| > 1 {
      assert k.c2s[..|k.c2s| - 1][0] == g && g in k.c2s[..|k.c2s| - 1];
    }
    assert k.server.queue + [] == k.server.queue;
  }

  lemma ClientTakesPayload(k: Conn)
    requires Phase(k) && k.s2c != []
    ensures var t := Process(k.client, k.s2c[0]).0;
      && t.queue == k.client.queue + (if k.client.state in {SynSent, Established} then k.s2c[0].payload else [])
      && (t.state in {SynSent, Established} ==> k.client.state in {SynSent, Established})
  {
    var g := k.s2c[0];
    assert g in k.s2c;
    assert k.client.queue + [] == k.client.queue;
  }

  lemma ServerReceiveKeepsStreams(k: Conn, k': Conn)
    requires Inv(k) && ServerReceives(k, k')
    ensures Streams(k')
  {
    ServerTakesPayload(k);
    Delivered(k.serverRead, k.server.queue, k'.server.queue, k.c2s, k.clientSent);
    RepliesAreBare(k.server, k.c2s[0], k.s2c);
  }

  lemma ServerReceiveKeepsPhase(k: Conn, k': Conn)
    requires Inv(k) && ServerReceives(k, k')
    ensures Phase(k')
  {
    hide Plus;
    var q := k.c2s;
    assert k.c2s[0] in k.c2s;
    match k.server.state {
      case Established =>
        if k.client.state != Established && |q| > 1 {
          assert q[..|q| - 1][0] == q[0] && q[0] in q[..|q| - 1];
          assert q[1..][..|q| - 2] == q[..|q| - 1][1..];
        }
      case SynRecv =>
      case Listen =>
      case LastAck =>
      case _ =>
    }
  }

  lemma ClientReceiveKeepsStreams(k: Conn, k': Conn)
    requires Inv(k) && ClientReceives(k, k')
    ensures Streams(k')
  {
    ClientTakesPayload(k);
    RepliesAreBare(k.client, k.s2c[0], k.c2s);
    if k.client.state in {SynSent, Established} {
      Delivered(k.clientRead, k.client.queue, k'.client.queue, k.s2c, k.serverSent);
      assert k'.clientRead + k'.client.queue <= k'.clientRead + k'.client.queue + Payloads(k'.s2c);
    }
  }

  lemma HandshakeReplyKeepsPhase(k: Conn, k': Conn)
    requires Phase(k) && ClientReceives(k, k') && k.server.state == SynRecv
    ensures Phase(k')
  {
    hide Plus;
  }

  lemma ServerDataKeepsPhase(k: Conn, k': Conn)
    requires Phase(k) && ClientReceives(k, k') && k.server.state == Established
    ensures Phase(k')
  {
    hide Plus;
    assert k.s2c[0] in k.s2c;
  }

  lemma LateDataKeepsPhase(k: Conn, k': Conn)
    requires Phase(k) && ClientReceives(k, k') && k.server.state == CloseWait
    ensures Phase(k')
  {
    hide Plus;
    assert k.s2c[0] in k.s2c;
  }

  lemma ServerFinKeepsPhase(k: Conn, k': Conn)
    requires Phase(k) && ClientReceives(k, k') && k.server.state == LastAck
    ensures Phase(k')
  {
    hide Plus;
    var q := k.s2c;
    if |q| > 1 {
      assert q[..|q| - 1][0] == q[0] && q[0] in q[..|q| - 1];
      assert q[1..][..|q| - 2] == q[..|q| - 1][1..];
    }
  }

  lemma ClientReceiveKeepsPhase(k: Conn, k': Conn)
    requires Inv(k) && ClientReceives(k, k')
    ensures Phase(k')
  {
    hide Plus, Process;
    match k.server.state {
      case Established => ServerDataKeepsPhase(k, k');
      case SynRecv => HandshakeReplyKeepsPhase(k, k');
      case CloseWait => LateDataKeepsPhase(k, k');
      case LastAck => ServerFinKeepsPhase(k, k');
      case _ =>
    }
  }

  lemma StepKeepsInv(k: Conn, k': Conn)
    requires Inv(k) && Next(k, k')
    ensures Inv(k')
  {
    if ClientConnects(k, k') {
      ConnectKeeps(k, k');
    } else if data :| ClientWrites(k, k', data) {
      ClientWriteKeeps(k, k', data);
    } else if data :| ServerWrites(k, k', data) {
      ServerWriteKeeps(k, k', data);
    } else if n: nat :| ClientReads(k, k', n) {
      ReadKeeps(k, k', n);
    } else if n: nat :| ServerReads(k, k', n) {
      ReadKeeps(k, k', n);
    } else if ClientCloses(k, k') {
      ClientCloseQueuesFin(k, k');
      ClientCloseKeeps(k, k', Close(k.client).1[0]);
    } else if ServerCloses(k, k') {
      ServerCloseKeeps(k, k');
    } else if ServerReceives(k, k') {
      ServerReceiveKeepsPhase(k, k');
      ServerReceiveKeepsStreams(k, k');
    } else if ClientReceives(k, k') {
      ClientReceiveKeepsPhase(k, k');
      ClientReceiveKeepsStreams(k, k');
    }
  }

  lemma {:induction false} RunKeepsInv(ks: seq<Conn>)
    requires Run(ks)
    ensures Inv(ks[|ks| - 1])
  {
    if |ks| > 1 {
      var front := ks[..|ks| - 1];
      assert Next(ks[|ks| - 2], ks[|ks| - 1]);
      RunKeepsInv(front);
      StepKeepsInv(ks[|ks| - 2], ks[|ks| - 1]);
    }
  }

  // ---- main results

  /** In every run the server reads a prefix of what the client sent and nothing is ever lost on
      the way; the same holds towards the client until it closes, and the prefix always. */
  lemma BytesArriveInOrder(ks: seq<Conn>)
    requires Run(ks)
    ensures var k := ks[|ks| - 1];
      && k.serverRead + k.server.queue + Payloads(k.c2s) == k.clientSent
      && (k.client.state == Established ==> k.clientRead + k.client.queue + Payloads(k.s2c) == k.serverSent)
      && k.serverRead <= k.clientSent && k.clientRead <= k.serverSent
  {
    RunKeepsInv(ks);
    var k := ks[|ks| - 1];
    assert k.clientRead <= k.clientRead + k.client.queue;
    assert k.serverRead <= k.serverRead + (k.server.queue + Payloads(k.c2s));
    assert k.serverRead + k.server.queue + Payloads(k.c2s) == k.serverRead + (k.server.queue + Payloads(k.c2s));
  }

  /** The server is done only when the client is, and no reset is ever in flight. */
  lemma CloseIsOrderly(ks: seq<Conn>)
    requires Run(ks)
    ensures var k := ks[|ks| - 1];
      && (k.server.state == Closed ==> k.client.state in {TimeWait, Closed})
      && (forall g | g in k.c2s + k.s2c :: !g.flags.rst)
  {
    RunKeepsInv(ks);
    var k := ks[|ks| - 1];
    forall g | g in k.c2s + k.s2c ensures !g.flags.rst {
      if g in k.c2s {
        InFlight(k.c2s, g);
      } else {
        InFlight(k.s2c, g);
      }
    }
  }

  lemma InFlight(q: seq<Segment>, g: Segment)
    requires g in q
    ensures g == q[0] || g in q[1..]
    ensures g == q[|q| - 1] || g in q[..|q| - 1]
    ensures |q| > 1 && g != q[0] ==> g == q[|q| - 1] || g in q[1..][..|q| - 2]
  {
    var i :| 0 <= i < |q| && q[i] == g;
    assert i > 0 ==> q[1..][i - 1] == g;
    assert i < |q| - 1 ==> q[..|q| - 1][i] == g;
    assert 0 < i < |q| - 1 ==> q[1..][..|q| - 2][i - 1] == g;
  }

  /** The two ends agree on each other's numbers when the handshake completes at the client, and
      each FIN, once processed, leaves its receiver expecting exactly what the peer would send. */
  lemma NumbersAgree(ks: seq<Conn>, k': Conn)
    requires Run(ks) && Next(ks[|ks| - 1], k')
    ensures var k := ks[|ks| - 1];
      && (k.client.state == SynSent && k'.client.state == Established ==> Synchronised(k'))
      && (k.server.state == Established && k'.server.state == CloseWait ==> k'.server.rcvNxt == k'.client.sndNxt)
      && (k.client.state == FinWait2 && k'.client.state == TimeWait ==> Synchronised(k'))
  {
    hide Plus;
    RunKeepsInv(ks);
    StepKeepsInv(ks[|ks| - 1], k');
  }

  /** Until the handshake completes at a side, its window is zero; wait structures stay alive. */
  ghost predicate Untouched(k: Conn) {
    && !k.client.waitSend.dead && !k.server.waitSend.dead
    && (k.server.state in {Listen, SynRecv} ==> k.server.sndWnd == 0)
    && (k.client.state == SynSent || k.server.state == Listen ==> k.client.sndWnd == 0)
  }

  lemma ProcessKeepsUntouched(s: Sock, g: Segment)
    ensures var t := Process(s, g).0;
      && (t.waitSend.dead <==> s.waitSend.dead)
      && (t.state in {SynSent, Listen} ==> t == s)
      && (t.state == SynRecv ==> s.state == Listen && t.sndWnd == s.sndWnd)
  {
    hide Plus, SegEnd;
  }

  lemma ListenMeansEarly(k: Conn)
    requires Phase(k) && k.server.state == Listen
    ensures k.client.state in {Closed, SynSent} && k.s2c == []
  {
  }

  lemma StepKeepsUntouched(k: Conn, k': Conn)
    requires Untouched(k) && Next(k, k')
    requires k.server.state == Listen ==> k.client.state in {Closed, SynSent} && k.s2c == []
    ensures Untouched(k')
  {
    hide Plus, Process;
    if ServerReceives(k, k') {
      ProcessKeepsUntouched(k.server, k.c2s[0]);
    } else if ClientReceives(k, k') {
      ProcessKeepsUntouched(k.client, k.s2c[0]);
    } else if data :| ClientWrites(k, k', data) {
    } else if data :| ServerWrites(k, k', data) {
    } else if n: nat :| ClientReads(k, k', n) {
    } else if n: nat :| ServerReads(k, k', n) {
    }
  }

  lemma {:induction false} RunKeepsUntouched(ks: seq<Conn>)
    requires Run(ks)
    ensures Untouched(ks[|ks| - 1])
  {
    if |ks| > 1 {
      var front := ks[..|ks| - 1];
      assert Next(ks[|ks| - 2], ks[|ks| - 1]);
      RunKeepsInv(front);
      RunKeepsUntouched(front);
      if front[|front| - 1].server.state == Listen {
        ListenMeansEarly(front[|front| - 1]);
      }
      StepKeepsUntouched(ks[|ks| - 2], ks[|ks| - 1]);
    }
  }

  /** In every run, the step that establishes a side leaves it with a notification it never slept for. */
  lemma EstablishedIsNotified(ks: seq<Conn>, k': Conn)
    requires Run(ks) && Next(ks[|ks| - 1], k')
    ensures var k := ks[|ks| - 1];
      && (k.client.state == SynSent && k'.client.state == Established ==> k'.client.waitSend.notified)
      && (k.server.state == SynRecv && k'.server.state == Established ==> k'.server.waitSend.notified)
  {
    hide Plus;
    RunKeepsUntouched(ks);
    RunKeepsInv(ks);
    var k := ks[|ks| - 1];
    if data :| ClientWrites(k, k', data) {
    } else if data :| ServerWrites(k, k', data) {
    } else if n: nat :| ClientReads(k, k', n) {
    } else if n: nat :| ServerReads(k, k', n) {
    } else {
    }
  }

  // ---- where the guarantees stop

  /** Everything the server sent is read, buffered or in flight. */
  ghost predicate Whole(k: Conn) { k.clientRead + k.client.queue + Payloads(k.s2c) == k.serverSent }

  /** A delivery to the client keeps the server's stream whole exactly when the client has not closed
      yet or the segment carried nothing: data that arrives after the close is dropped. */
  lemma DeliveryKeepsStreamWholeIff(k: Conn, k': Conn)
    requires Inv(k) && Whole(k) && ClientReceives(k, k')
    ensures Whole(k') <==> k.client.state in {SynSent, Established} || k.s2c[0].payload == []
  {
    hide Payloads;
    ClientTakesPayload(k);
    hide Process;
    PayloadsCons(k.s2c);
    if k.client.state in {SynSent, Established} {
      Delivered(k.clientRead, k.client.queue, k'.client.queue, k.s2c, k.serverSent);
    } else {
      var kept := k.clientRead + k.client.queue + Payloads(k'.s2c);
      assert |k.serverSent| == |kept| + |k.s2c[0].payload|;
    }
  }

  function ReceiveAll(s: Sock, gs: seq<Segment>): Sock {
    if gs == [] then s else Process(ReceiveAll(s, gs[..|gs| - 1]), gs[|gs| - 1]).0
  }

  /** Every segment meets the receive buffer's assertion when it arrives. */
  ghost predicate AllFit(s: Sock, gs: seq<Segment>) {
    forall i | 0 <= i < |gs| :: Fits(ReceiveAll(s, gs[..i]), gs[i])
  }

  lemma DataIsQueued(s: Sock, g: Segment)
    requires s.state == Established && Data(g)
    ensures var t := Process(s, g).0; t.state == Established && t.size == s.size && t.queue == s.queue + g.payload
  {
  }

  lemma {:induction false} ReceiveAllQueues(s: Sock, gs: seq<Segment>)
    requires s.state == Established && AllData(gs)
    ensures var t := ReceiveAll(s, gs); t.state == Established && t.size == s.size && t.queue == s.queue + Payloads(gs)
  {
    hide Process;
    if gs != [] {
      var front, g := gs[..|gs| - 1], gs[|gs| - 1];
      assert g in gs && forall h | h in front :: h in gs;
      ReceiveAllQueues(s, front);
      DataIsQueued(ReceiveAll(s, front), g);
      assert s.queue + Payloads(front) + g.payload == s.queue + (Payloads(front) + g.payload);
    } else {
      assert s.queue + [] == s.queue;
    }
  }

  ghost predicate NoneEmpty(gs: seq<Segment>) { forall i | 0 <= i < |gs| :: gs[i].payload != [] }

  lemma AllFitSnoc(s: Sock, front: seq<Segment>, g: Segment)
    ensures AllFit(s, front + [g]) <==> AllFit(s, front) && Fits(ReceiveAll(s, front), g)
  {
    hide Process, Fits;
    var gs := front + [g];
    assert gs[..|front|] == front && gs[|front|] == g;
    assert forall i | 0 <= i < |front| :: gs[..i] == front[..i] && gs[i] == front[i];
  }

  /** One more segment, when n bytes have been queued on top of s's. */
  lemma OneMoreFits(s: Sock, t: Sock, g: Segment, n: nat)
    requires t.state == Established && t.size == s.size && |t.queue| == |s.queue| + n && Data(g)
    ensures Fits(t, g) <==> g.payload != [] && n + |g.payload| <= s.size - |s.queue| - 1
  {
  }

  lemma NothingFits(s: Sock)
    ensures AllFit(s, []) && Payloads([]) == []
  {
  }

  /** Data sent back to back, with no read in between, passes the assertion exactly when no segment is
      empty and all of it together fits the room left in the buffer. */
  lemma {:induction false} BackToBackFitsIff(s: Sock, gs: seq<Segment>)
    requires s.state == Established && AllData(gs) && |s.queue| < s.size
    ensures AllFit(s, gs) <==> NoneEmpty(gs) && |Payloads(gs)| <= s.size - |s.queue| - 1
  {
    hide Process, Fits, ReceiveAll, AllFit, Payloads;
    if gs == [] {
      NothingFits(s);
    } else {
      var front, g := gs[..|gs| - 1], gs[|gs| - 1];
      assert g in gs && forall h | h in front :: h in gs;
      BackToBackFitsIff(s, front);
      ReceiveAllQueues(s, front);
      OneMoreFits(s, ReceiveAll(s, front), g, |Payloads(front)|);
      assert front + [g] == gs;
      AllFitSnoc(s, front, g);
      PayloadsSnoc(front, g);
    }
  }

  /** The initial advertised window is one byte more than a fresh buffer holds, so a sender that
      uses all of it before the first read overruns the buffer. */
  lemma InitialWindowIsTooLarge(iss: U32, gs: seq<Segment>)
    requires AllData(gs) && NoneEmpty(gs) && |Payloads(gs)| <= DEFAULT_WINDOW
    ensures var s := Sock(Established, iss, 0, 0, DEFAULT_WINDOW, [], DEFAULT_WINDOW, AWAKE);
      AllFit(s, gs) <==> |Payloads(gs)| != DEFAULT_WINDOW
  {
    BackToBackFitsIff(Sock(Established, iss, 0, 0, DEFAULT_WINDOW, [], DEFAULT_WINDOW, AWAKE), gs);
  }
}
