/** The numbers of a connection: what a control segment acknowledges, how the segments in flight are numbered,
    and which states a side moves through. */
module TcpNumbers {
  import opened Common
  import opened TcpState
  import opened TcpConnection
  import opened TcpWindows

  // ---- one segment

  /** The segment is answered: a SYN, the answer to one, or a FIN where a FIN is looked for. */
  ghost predicate Answered(s: Sock, g: Segment) {
    || s.state == Listen || (s.state == SynSent && g.flags == Flags(false, true, false, false, true))
    || (s.state in {Established, FinWait2} && g.flags.fin)
  }

  /** The next number after a segment: one for each byte, and one for a SYN or a FIN. */
  function NumberAfter(g: Segment): int {
    (g.seqNo + |g.payload| + if g.flags.syn || g.flags.fin then 1 else 0) % 0x1_0000_0000
  }

  /** An answer is one bare segment, under the next number, that acknowledges the number received and
      advertises the window; a SYN is answered by a SYN. */
  lemma AnswersAcknowledge(s: Sock, g: Segment)
    requires s.state != Closed
    ensures var (t, out) := Process(s, g);
      if Answered(s, g) then
        && out == [Segment(Flags(false, s.state == Listen, false, false, true), s.sndNxt,
                           (g.seqNo + 1) % 0x1_0000_0000, s.rcvWnd, [])]
        && t.rcvNxt == (g.seqNo + 1) % 0x1_0000_0000 && t.sndNxt == NumberAfter(out[0])
      else
        && out == [] && t.sndNxt == s.sndNxt
        && t.rcvNxt == if s.state == Established && g.flags.psh then (g.seqNo + 1) % 0x1_0000_0000 else s.rcvNxt
  {
  }

  /** A closed socket resets whoever sends to it: the number after the segment is acknowledged. */
  lemma ClosedSocketResets(s: Sock, g: Segment)
    requires s.state == Closed
    ensures Process(s, g) == (s, [Segment(Flags(false, false, true, false, true), 0, NumberAfter(g), 0, [])])
  {
  }

  /** Data takes the next numbers and acknowledges what is expected next. */
  lemma DataIsNumbered(s: Sock, data: seq<Byte>)
    ensures var (t, g) := Transmit(s, data);
      && g == Segment(Flags(false, false, false, true, true), s.sndNxt, s.rcvNxt, s.rcvWnd, data)
      && t.sndNxt == NumberAfter(g) && t == s.(sndNxt := t.sndNxt, sndWnd := t.sndWnd)
  {
  }

  /** A close sends a FIN exactly from the two states in which data could be sent, and ends a listening one. */
  lemma CloseSendsFinIff(s: Sock)
    ensures var (t, out) := Close(s);
      && (out != [] <==> s.state in {Established, CloseWait})
      && (out != [] ==> && out == [Segment(Flags(true, false, false, false, true), s.sndNxt, s.rcvNxt, s.rcvWnd, [])]
                        && t.sndNxt == NumberAfter(out[0]))
      && t == s.(state := t.state, sndNxt := if out == [] then s.sndNxt else t.sndNxt)
      && (s.state == Established ==> t.state == FinWait1) && (s.state == CloseWait ==> t.state == LastAck)
      && (s.state == Listen ==> t.state == Closed) && (t == s <==> s.state !in {Listen, Established, CloseWait})
  {
  }

  /** A side that sent its FIN goes on exactly when the segment it gets acknowledges something. */
  lemma FinIsAnsweredIff(s: Sock, g: Segment)
    requires s.state in {FinWait1, LastAck}
    ensures var (t, out) := Process(s, g);
      out == [] && t == if g.flags.ack then s.(state := if s.state == FinWait1 then FinWait2 else Closed) else s
  {
  }

  lemma ConnectSendsSyn(s: Sock)
    ensures var (t, g) := Connect(s);
      && g == Segment(Flags(false, true, false, false, false), s.sndNxt, 0, s.rcvWnd, [])
      && t == s.(state := SynSent, rcvNxt := 0, sndNxt := NumberAfter(g))
  {
  }

  /** After data the number expected next is that of the peer's next byte exactly when it was one byte: the
      length is not counted. */
  lemma ExpectedAfterDataIff(s: Sock, g: Segment)
    requires s.state == Established && g.flags == PSH_ACK && |g.payload| < 0x1_0000
    ensures Process(s, g).0.rcvNxt == NumberAfter(g) <==> |g.payload| == 1
  {
    var r := g.seqNo + |g.payload|;
    assert r % 0x1_0000_0000 == if r < 0x1_0000_0000 then r else r - 0x1_0000_0000;
  }

  // ---- in every run

  /** Each segment of the channel is numbered from where the one before it ends, up to `next`. */
  ghost predicate NumberedTo(q: seq<Segment>, next: U32) {
    q != [] ==> NumberAfter(q[|q| - 1]) == next && NumberedTo(q[..|q| - 1], q[|q| - 1].seqNo)
  }

  lemma NumberedSnoc(q: seq<Segment>, g: Segment)
    requires NumberedTo(q, g.seqNo)
    ensures NumberedTo(q + [g], NumberAfter(g))
  {
    assert (q + [g])[..|q|] == q;
  }

  lemma {:induction false} NumberedTail(q: seq<Segment>, next: U32)
    requires q != [] && NumberedTo(q, next)
    ensures NumberedTo(q[1..], next)
  {
    if |q| > 1 {
      NumberedTail(q[..|q| - 1], q[|q| - 1].seqNo);
      assert q[1..][..|q| - 2] == q[..|q| - 1][1..];
    }
  }

  /** Of what is under way, the answers acknowledge all that the peer has sent. */
  ghost predicate AllAcknowledged(k: Conn) {
    && (forall g | g in k.s2c && g.flags in {SYN_ACK, ACK, FIN_ACK} :: g.ack == k.client.sndNxt)
    && (forall g | g in k.c2s && g.flags == ACK :: g.ack == k.server.sndNxt)
  }

  ghost predicate ChannelsNumbered(k: Conn) {
    NumberedTo(k.c2s, k.client.sndNxt) && NumberedTo(k.s2c, k.server.sndNxt)
  }

  lemma QueueGrows(q: seq<Segment>, s: Sock, t: Sock, out: seq<Segment>)
    requires NumberedTo(q, s.sndNxt) && |out| <= 1
    requires out == [] ==> t.sndNxt == s.sndNxt
    requires out != [] ==> out[0].seqNo == s.sndNxt && t.sndNxt == NumberAfter(out[0])
    ensures NumberedTo(q + out, t.sndNxt)
  {
    hide NumberedTo;
    if out == [] {
      assert q + out == q;
    } else {
      NumberedSnoc(q, out[0]);
      assert q + out == q + [out[0]];
    }
  }

  lemma ReceiverIsOpen(k: Conn)
    requires Phase(k)
    ensures k.c2s != [] ==> k.server.state != Closed
    ensures k.s2c != [] ==> k.client.state != Closed
  {
  }

  lemma StepKeepsNumbers(k: Conn, k': Conn)
    requires Inv(k) && ChannelsNumbered(k) && Next(k, k')
    ensures ChannelsNumbered(k')
  {
    ReceiverIsOpen(k);
    hide Inv, Phase, Process, Plus, NumberedTo, NumberAfter, Transmit, Connect, Close, Answered;
    if ClientReceives(k, k') {
      AnswersAcknowledge(k.client, k.s2c[0]);
      NumberedTail(k.s2c, k.server.sndNxt);
      QueueGrows(k.c2s, k.client, k'.client, Process(k.client, k.s2c[0]).1);
    } else if ServerReceives(k, k') {
      AnswersAcknowledge(k.server, k.c2s[0]);
      NumberedTail(k.c2s, k.client.sndNxt);
      QueueGrows(k.s2c, k.server, k'.server, Process(k.server, k.c2s[0]).1);
    } else if data :| ClientWrites(k, k', data) {
      DataIsNumbered(k.client, data);
      NumberedSnoc(k.c2s, Transmit(k.client, data).1);
    } else if data :| ServerWrites(k, k', data) {
      DataIsNumbered(k.server, data);
      NumberedSnoc(k.s2c, Transmit(k.server, data).1);
    } else if ClientConnects(k, k') {
      ConnectSendsSyn(k.client);
      NumberedSnoc(k.c2s, Connect(k.client).1);
    } else if ClientCloses(k, k') {
      CloseSendsFinIff(k.client);
      QueueGrows(k.c2s, k.client, k'.client, Close(k.client).1);
    } else if ServerCloses(k, k') {
      CloseSendsFinIff(k.server);
      QueueGrows(k.s2c, k.server, k'.server, Close(k.server).1);
    } else if n: nat :| ClientReads(k, k', n) {
    } else if n: nat :| ServerReads(k, k', n) {
    }
  }

  /** What is answered is the last thing its sender has numbered so far. */
  lemma AnsweredIsLast(k: Conn)
    requires Phase(k)
    ensures k.c2s != [] && Answered(k.server, k.c2s[0]) ==>
      (k.c2s[0].seqNo + 1) % 0x1_0000_0000 == k.client.sndNxt
    ensures k.s2c != [] && Answered(k.client, k.s2c[0]) ==>
      (k.s2c[0].seqNo + 1) % 0x1_0000_0000 == k.server.sndNxt
  {
    if k.c2s != [] {
      InFlight(k.c2s, k.c2s[0]);
    }
    if k.s2c != [] {
      InFlight(k.s2c, k.s2c[0]);
    }
  }

  lemma ReceiptKeepsAcknowledged(k: Conn, k': Conn)
    requires Phase(k) && AllAcknowledged(k) && (ClientReceives(k, k') || ServerReceives(k, k'))
    ensures AllAcknowledged(k')
  {
    ReceiverIsOpen(k);
    AnsweredIsLast(k);
    assert k.server.state == Listen && k.c2s != [] ==> k.c2s[1..] == [];
    hide Phase, Process, Plus, Answered, NumberAfter;
    if ClientReceives(k, k') {
      AnswersAcknowledge(k.client, k.s2c[0]);
    } else {
      AnswersAcknowledge(k.server, k.c2s[0]);
    }
  }

  /** While a side can send data, the peer's answers are not under way to it. */
  lemma SenderHasNoAnswers(k: Conn)
    requires Phase(k)
    ensures k.client.state == Established || (k.client.state == Closed && k.server.state == Listen) ==>
      forall g | g in k.s2c :: g.flags == PSH_ACK
    ensures k.server.state in {Established, CloseWait} ==> forall g | g in k.c2s :: g.flags != ACK
    ensures k.server.state == CloseWait ==> k.server.rcvNxt == k.client.sndNxt
  {
    if k.server.state == Established {
      forall g | g in k.c2s ensures g.flags != ACK {
        InFlight(k.c2s, g);
      }
    }
  }

  lemma WriteKeepsAcknowledged(k: Conn, k': Conn, data: seq<Byte>)
    requires Phase(k) && AllAcknowledged(k) && (ClientWrites(k, k', data) || ServerWrites(k, k', data))
    ensures AllAcknowledged(k')
  {
    SenderHasNoAnswers(k);
    DataIsNumbered(k.client, data);
    DataIsNumbered(k.server, data);
    hide Phase, Plus, Transmit, NumberAfter;
  }

  lemma CloseKeepsAcknowledged(k: Conn, k': Conn)
    requires Phase(k) && AllAcknowledged(k)
    requires ClientConnects(k, k') || ClientCloses(k, k') || ServerCloses(k, k')
    ensures AllAcknowledged(k')
  {
    SenderHasNoAnswers(k);
    ConnectSendsSyn(k.client);
    CloseSendsFinIff(k.client);
    CloseSendsFinIff(k.server);
    hide Phase, Plus, Connect, Close, NumberAfter;
  }

  lemma StepKeepsAcknowledged(k: Conn, k': Conn)
    requires Inv(k) && AllAcknowledged(k) && Next(k, k')
    ensures AllAcknowledged(k')
  {
    hide Phase, Process, Plus, Transmit, Connect, Close, Streams, NumberAfter;
    if ClientReceives(k, k') || ServerReceives(k, k') {
      ReceiptKeepsAcknowledged(k, k');
    } else if data :| ClientWrites(k, k', data) || ServerWrites(k, k', data) {
      WriteKeepsAcknowledged(k, k', data);
    } else if ClientConnects(k, k') || ClientCloses(k, k') || ServerCloses(k, k') {
      CloseKeepsAcknowledged(k, k');
    } else {
      assert k'.c2s == k.c2s && k'.s2c == k.s2c;
      assert k'.client.sndNxt == k.client.sndNxt && k'.server.sndNxt == k.server.sndNxt;
    }
  }

  // ---- the states

  /** Where a segment that the channel can hold sends the client, or the server. */
  lemma ClientGets(k: Conn)
    requires Phase(k) && k.s2c != []
    ensures k.client.state in {SynSent, Established, FinWait1, FinWait2}
    ensures Process(k.client, k.s2c[0]).0.state ==
      match k.client.state
      case SynSent => Established
      case Established => Established
      case _ => if k.s2c[0].flags.fin then TimeWait else FinWait2
  {
    InFlight(k.s2c, k.s2c[0]);
  }

  lemma ServerGets(k: Conn)
    requires Phase(k) && k.c2s != []
    ensures k.server.state in {Listen, SynRecv, Established, LastAck}
    ensures Process(k.server, k.c2s[0]).0.state ==
      match k.server.state
      case Listen => SynRecv
      case SynRecv => Established
      case Established => if k.c2s[0].flags.fin then CloseWait else Established
      case _ => Closed
  {
    InFlight(k.c2s, k.c2s[0]);
  }

  // ---- numbers count

  /** The SYN, the bytes sent, and the FIN. */
  function ClientCount(k: Conn): nat {
    (if k.client.state == Closed && k.server.state == Listen then 0 else 1) + |k.clientSent|
    + if k.client.state in {FinWait1, FinWait2, TimeWait} || (k.client.state == Closed && k.server.state != Listen)
      then 1 else 0
  }

  function ServerCount(k: Conn): nat {
    (if k.server.state == Listen then 0 else 1) + |k.serverSent| + if k.server.state in {LastAck, Closed} then 1 else 0
  }

  lemma ReceiptCounts(k: Conn, k': Conn)
    requires Inv(k) && (ClientReceives(k, k') || ServerReceives(k, k'))
    ensures ClientCount(k') == ClientCount(k) && k'.client.sndNxt == k.client.sndNxt
    ensures if k.server.state == Listen then
              ServerCount(k') == ServerCount(k) + 1 && k'.server.sndNxt == Plus(k.server.sndNxt, 1)
            else ServerCount(k') == ServerCount(k) && k'.server.sndNxt == k.server.sndNxt
  {
    ReceiverIsOpen(k);
    if ClientReceives(k, k') {
      ClientGets(k);
      hide Process, Phase, Streams;
      AnswersAcknowledge(k.client, k.s2c[0]);
    } else {
      ServerGets(k);
      hide Process, Phase, Streams;
      AnswersAcknowledge(k.server, k.c2s[0]);
    }
  }

  lemma WriteCounts(k: Conn, k': Conn, data: seq<Byte>)
    requires ClientWrites(k, k', data) || ServerWrites(k, k', data)
    ensures ClientCount(k') >= ClientCount(k) && ServerCount(k') >= ServerCount(k)
    ensures k'.client.sndNxt == Plus(k.client.sndNxt, ClientCount(k') - ClientCount(k))
    ensures k'.server.sndNxt == Plus(k.server.sndNxt, ServerCount(k') - ServerCount(k))
  {
    if ClientWrites(k, k', data) {
      DataIsNumbered(k.client, data);
    } else {
      DataIsNumbered(k.server, data);
    }
    hide Transmit;
  }

  lemma CloseCounts(k: Conn, k': Conn)
    requires ClientCloses(k, k') || ServerCloses(k, k') || ClientConnects(k, k')
    ensures ClientCount(k') >= ClientCount(k) && ServerCount(k') >= ServerCount(k)
    ensures k'.client.sndNxt == Plus(k.client.sndNxt, ClientCount(k') - ClientCount(k))
    ensures k'.server.sndNxt == Plus(k.server.sndNxt, ServerCount(k') - ServerCount(k))
  {
    hide Connect, Close;
    if ClientConnects(k, k') {
      ConnectSendsSyn(k.client);
    } else if ClientCloses(k, k') {
      CloseSendsFinIff(k.client);
    } else {
      CloseSendsFinIff(k.server);
    }
  }

  lemma StepCounts(k: Conn, k': Conn)
    requires Inv(k) && Next(k, k')
    ensures ClientCount(k') >= ClientCount(k) && ServerCount(k') >= ServerCount(k)
    ensures k'.client.sndNxt == Plus(k.client.sndNxt, ClientCount(k') - ClientCount(k))
    ensures k'.server.sndNxt == Plus(k.server.sndNxt, ServerCount(k') - ServerCount(k))
  {
    hide Process, Streams, Transmit, Connect, Close;
    if ClientReceives(k, k') || ServerReceives(k, k') {
      ReceiptCounts(k, k');
    } else if data :| ClientWrites(k, k', data) || ServerWrites(k, k', data) {
      WriteCounts(k, k', data);
    } else if ClientCloses(k, k') || ServerCloses(k, k') || ClientConnects(k, k') {
      CloseCounts(k, k');
    } else {
      RestCounts(k, k');
    }
  }

  /** The steps that send nothing. */
  lemma RestCounts(k: Conn, k': Conn)
    requires (exists n :: ClientReads(k, k', n) || ServerReads(k, k', n)) || (Phase(k) && ClientExpires(k, k'))
    ensures ClientCount(k') == ClientCount(k) && k'.client.sndNxt == k.client.sndNxt
    ensures ServerCount(k') == ServerCount(k) && k'.server.sndNxt == k.server.sndNxt
  {
  }

  // ---- in every run

  /** Counting from the first numbers c and s of the two sides. */
  ghost predicate Counted(k: Conn, c: U32, s: U32) {
    k.client.sndNxt == Plus(c, ClientCount(k)) && k.server.sndNxt == Plus(s, ServerCount(k))
  }

  lemma StepKeepsCounted(k: Conn, k': Conn, c: U32, s: U32)
    requires Inv(k) && Counted(k, c, s) && Next(k, k')
    ensures Counted(k', c, s)
  {
    StepCounts(k, k');
    hide Inv, Next, ClientCount, ServerCount, Plus;
    CountOn(c, k.client.sndNxt, ClientCount(k), k'.client.sndNxt, ClientCount(k'));
    CountOn(s, k.server.sndNxt, ServerCount(k), k'.server.sndNxt, ServerCount(k'));
  }

  lemma CountOn(first: U32, next: U32, n: nat, next': U32, n': nat)
    requires n <= n' && next == Plus(first, n) && next' == Plus(next, n' - n)
    ensures next' == Plus(first, n')
  {
    PlusPlus(first, n, n' - n);
  }

  /** In every run the segments under way are numbered in a row up to the sender's next number, that number
      counts the bytes the sender has sent with its SYN and its FIN, and answers acknowledge all of it. */
  lemma {:induction false} NumbersCount(ks: seq<Conn>, i: nat)
    requires Run(ks) && i < |ks|
    ensures ChannelsNumbered(ks[i]) && AllAcknowledged(ks[i])
    ensures Counted(ks[i], ks[0].client.sndNxt, ks[0].server.sndNxt)
  {
    if i > 0 {
      NumbersCount(ks, i - 1);
      StepAt(ks, i);
      hide Run, Inv, Next, ChannelsNumbered, AllAcknowledged, Counted;
      StepKeepsNumbers(ks[i - 1], ks[i]);
      StepKeepsAcknowledged(ks[i - 1], ks[i]);
      StepKeepsCounted(ks[i - 1], ks[i], ks[0].client.sndNxt, ks[0].server.sndNxt);
    }
  }

  ghost predicate ClientSendsFin(k: Conn, k': Conn) { |k'.c2s| > |k.c2s| && k'.c2s[|k.c2s|].flags.fin }

  ghost predicate ServerSendsFin(k: Conn, k': Conn) { |k'.s2c| > |k.s2c| && k'.s2c[|k.s2c|].flags.fin }

  /** Where a step takes the client. */
  ghost function ClientGoesTo(k: Conn, k': Conn): State {
    var gets := |k'.s2c| < |k.s2c|;
    match k.client.state
    case Closed => if |k'.c2s| > |k.c2s| then SynSent else Closed
    case SynSent => if gets then Established else SynSent
    case Established => if ClientSendsFin(k, k') then FinWait1 else Established
    case FinWait1 => if gets then FinWait2 else FinWait1
    case FinWait2 => if gets && k.s2c[0].flags.fin then TimeWait else FinWait2
    case _ => if ClientExpires(k, k') then Closed else TimeWait
  }

  ghost function ServerGoesTo(k: Conn, k': Conn): State {
    var gets := |k'.c2s| < |k.c2s|;
    match k.server.state
    case Listen => if gets then SynRecv else Listen
    case SynRecv => if gets then Established else SynRecv
    case Established => if gets && k.c2s[0].flags.fin then CloseWait else Established
    case CloseWait => if ServerSendsFin(k, k') then LastAck else CloseWait
    case _ => if gets then Closed else k.server.state
  }

  lemma ReceiptPath(k: Conn, k': Conn)
    requires Inv(k) && (ClientReceives(k, k') || ServerReceives(k, k'))
    ensures k'.client.state == ClientGoesTo(k, k') && k'.server.state == ServerGoesTo(k, k')
  {
    SidesKeepTheirParts(k);
    if ClientReceives(k, k') {
      ClientGets(k);
      AnswersAcknowledge(k.client, k.s2c[0]);
    } else {
      ServerGets(k);
      AnswersAcknowledge(k.server, k.c2s[0]);
    }
    hide Inv, Process, Plus, NumberAfter, Answered;
  }

  lemma WritePath(k: Conn, k': Conn, data: seq<Byte>)
    requires ClientWrites(k, k', data) || ServerWrites(k, k', data)
    requires k.client.state !in {Listen, SynRecv, CloseWait, LastAck}
    requires k.server.state in {Listen, SynRecv, Established, CloseWait, LastAck, Closed}
    ensures k'.client.state == ClientGoesTo(k, k') && k'.server.state == ServerGoesTo(k, k')
  {
    hide Plus;
  }

  lemma ClosePath(k: Conn, k': Conn)
    requires ClientCloses(k, k') || ServerCloses(k, k')
    requires k.client.state !in {Listen, SynRecv, CloseWait, LastAck}
    requires k.server.state in {Listen, SynRecv, Established, CloseWait, LastAck, Closed}
    ensures k'.client.state == ClientGoesTo(k, k') && k'.server.state == ServerGoesTo(k, k')
  {
    hide Plus;
    CloseSendsFinIff(k.client);
    CloseSendsFinIff(k.server);
    hide Close, NumberAfter;
  }

  lemma SendPath(k: Conn, k': Conn)
    requires Inv(k) && Next(k, k') && !ClientReceives(k, k') && !ServerReceives(k, k')
    ensures k'.client.state == ClientGoesTo(k, k') && k'.server.state == ServerGoesTo(k, k')
  {
    SidesKeepTheirParts(k);
    hide Inv, Plus, ClientReceives, ServerReceives;
    if data :| ClientWrites(k, k', data) || ServerWrites(k, k', data) {
      hide ClientGoesTo, ServerGoesTo;
      WritePath(k, k', data);
    } else if n: nat :| ClientReads(k, k', n) || ServerReads(k, k', n) {
      assert k'.c2s == k.c2s && k'.s2c == k.s2c && k'.client.state == k.client.state;
    } else if ClientCloses(k, k') || ServerCloses(k, k') {
      hide ClientGoesTo, ServerGoesTo;
      ClosePath(k, k');
    }
  }

  /** In every run the client goes through its states in one order, and on exactly when it sends its SYN, gets
      the answer, sends its FIN, gets what follows, gets the server's FIN, and when the timer fires; the
      server when it gets the SYN, gets the answer to its own, gets the FIN, sends its FIN, and gets the
      answer. */
  lemma SidesFollowTheirPaths(ks: seq<Conn>, k': Conn)
    requires Run(ks) && Next(ks[|ks| - 1], k')
    ensures var k := ks[|ks| - 1];
      k'.client.state == ClientGoesTo(k, k') && k'.server.state == ServerGoesTo(k, k')
  {
    RunKeepsInv(ks);
    var k := ks[|ks| - 1];
    if ClientReceives(k, k') || ServerReceives(k, k') {
      ReceiptPath(k, k');
    } else {
      SendPath(k, k');
    }
  }
}
