/** The two windows of each side over whole runs: what a side may still send is the window the peer last
    advertised to it less what it sent since, and what it advertises is the room its last read left. */
module TcpWindows {
  import opened Common
  import opened TcpState
  import opened TcpConnection

  /** Taking n bytes off a 16-bit window. */
  function Less(w: int, n: int): U16 { (w - n) % 0x1_0000 }

  lemma LessLess(w: int, m: int, n: int)
    ensures Less(Less(w, m), n) == Less(w, m + n)
  {
    var q := (w - m) / 0x1_0000;
    assert Less(w, m) - n == (w - (m + n)) - q * 0x1_0000;
  }

  // ---- the window of the sender

  /** The client takes a segment off its channel whose window it adopts: the answer to its SYN, or data
      while it is established. */
  ghost predicate ClientAdopts(k: Conn, k': Conn) {
    && |k'.s2c| < |k.s2c|
    && (|| (k.client.state == SynSent && k.s2c[0].flags == SYN_ACK)
        || (k.client.state == Established && k.s2c[0].flags.psh))
  }

  /** The server: any segment that completes the handshake, or data while it is established. */
  ghost predicate ServerAdopts(k: Conn, k': Conn) {
    && |k'.c2s| < |k.c2s|
    && (k.server.state == SynRecv || (k.server.state == Established && k.c2s[0].flags.psh))
  }

  /** A notification is left exactly where the window was zero. */
  ghost predicate Rouses(s: Sock, t: Sock) {
    t.waitSend == if s.sndWnd == 0 && !s.waitSend.dead then s.waitSend.(notified := true) else s.waitSend
  }

  lemma ProcessAdopts(s: Sock, g: Segment)
    requires s.state in {SynSent, SynRecv, Established}
    requires s.state == SynSent ==> g.flags == SYN_ACK
    requires s.state == Established ==> g.flags.psh
    ensures var t := Process(s, g).0; t.sndWnd == g.rwnd && Rouses(s, t)
  {
    hide Plus;
  }

  lemma ProcessKeepsWindow(s: Sock, g: Segment)
    requires s.state !in {SynRecv} && (s.state == SynSent ==> g.flags != SYN_ACK)
    requires s.state == Established ==> !g.flags.psh
    ensures var t := Process(s, g).0; t.sndWnd == s.sndWnd && t.waitSend == s.waitSend
  {
    hide Plus, SegEnd;
  }

  /** Which states each side has at all. */
  lemma SidesKeepTheirParts(k: Conn)
    requires Phase(k)
    ensures k.client.state !in {Listen, SynRecv, CloseWait, LastAck}
    ensures k.server.state in {Listen, SynRecv, Established, CloseWait, LastAck, Closed}
    ensures k.server.state in {CloseWait, LastAck} ==> forall g | g in k.c2s :: !g.flags.psh
  {
  }

  /** A step that adopts a window replaces the client's and leaves a notification where it was zero; any other
      step lowers it by the number of bytes the client sends in it, and notifies nobody. */
  lemma ClientWindowStep(k: Conn, k': Conn)
    requires Inv(k) && Next(k, k')
    ensures ClientAdopts(k, k') ==>
      k'.client.sndWnd == k.s2c[0].rwnd && k'.clientSent == k.clientSent && Rouses(k.client, k'.client)
    ensures |k'.clientSent| >= |k.clientSent|
    ensures !ClientAdopts(k, k') ==>
      && k'.client.sndWnd == Less(k.client.sndWnd, |k'.clientSent| - |k.clientSent|)
      && k'.client.waitSend == k.client.waitSend
  {
    SidesKeepTheirParts(k);
    hide Plus, Process, Inv;
    if data :| ClientWrites(k, k', data) {
    } else if ClientReceives(k, k') {
      if ClientAdopts(k, k') {
        ProcessAdopts(k.client, k.s2c[0]);
      } else {
        ProcessKeepsWindow(k.client, k.s2c[0]);
      }
    } else if data :| ServerWrites(k, k', data) {
    } else if n: nat :| ClientReads(k, k', n) {
    } else if n: nat :| ServerReads(k, k', n) {
    }
  }

  lemma ServerWindowStep(k: Conn, k': Conn)
    requires Inv(k) && Next(k, k')
    ensures ServerAdopts(k, k') ==>
      k'.server.sndWnd == k.c2s[0].rwnd && k'.serverSent == k.serverSent && Rouses(k.server, k'.server)
    ensures |k'.serverSent| >= |k.serverSent|
    ensures !ServerAdopts(k, k') ==>
      && k'.server.sndWnd == Less(k.server.sndWnd, |k'.serverSent| - |k.serverSent|)
      && k'.server.waitSend == k.server.waitSend
  {
    SidesKeepTheirParts(k);
    hide Plus, Process, Inv;
    if data :| ServerWrites(k, k', data) {
    } else if ServerReceives(k, k') {
      if ServerAdopts(k, k') {
        ProcessAdopts(k.server, k.c2s[0]);
      } else {
        ProcessKeepsWindow(k.server, k.c2s[0]);
      }
    } else if data :| ClientWrites(k, k', data) {
    } else if n: nat :| ClientReads(k, k', n) {
    } else if n: nat :| ServerReads(k, k', n) {
    }
  }

  ghost predicate ClientAdoptsAt(ks: seq<Conn>, j: int) { 0 <= j < |ks| - 1 && ClientAdopts(ks[j], ks[j + 1]) }

  ghost predicate ServerAdoptsAt(ks: seq<Conn>, j: int) { 0 <= j < |ks| - 1 && ServerAdopts(ks[j], ks[j + 1]) }

  /** Step j was the last that adopted a window. */
  ghost predicate LastClientAdoption(ks: seq<Conn>, i: nat, j: int) {
    j < i && ClientAdoptsAt(ks, j) && forall u | j < u < i :: !ClientAdoptsAt(ks, u)
  }

  ghost predicate LastServerAdoption(ks: seq<Conn>, i: nat, j: int) {
    j < i && ServerAdoptsAt(ks, j) && forall u | j < u < i :: !ServerAdoptsAt(ks, u)
  }

  lemma {:induction false} StepAt(ks: seq<Conn>, i: nat)
    requires Run(ks) && i < |ks|
    ensures Inv(ks[i])
    ensures i == 0 ==> ks[i].server.state == Listen
    ensures i > 0 ==> Inv(ks[i - 1]) && Next(ks[i - 1], ks[i])
  {
    RunKeepsInv(ks[..i + 1]);
    if i > 0 {
      RunKeepsInv(ks[..i]);
    }
  }

  /** Step j was the last before i to adopt a window; since then only bytes sent were taken off it. */
  ghost predicate ClientWindowIs(ks: seq<Conn>, i: nat, j: int) {
    && i < |ks| && LastClientAdoption(ks, i, j) && |ks[i].clientSent| >= |ks[j].clientSent|
    && ks[i].client.sndWnd == Less(ks[j].s2c[0].rwnd, |ks[i].clientSent| - |ks[j].clientSent|)
  }

  lemma ClientWindowStarts(ks: seq<Conn>, i: nat)
    requires 0 < i < |ks| && ClientAdopts(ks[i - 1], ks[i])
    requires ks[i].client.sndWnd == ks[i - 1].s2c[0].rwnd && ks[i].clientSent == ks[i - 1].clientSent
    ensures ClientWindowIs(ks, i, i - 1)
  {
    hide ClientAdopts;
    assert ClientAdoptsAt(ks, i - 1);
  }

  lemma ClientWindowGoesOn(ks: seq<Conn>, i: nat, j: int)
    requires 0 < i < |ks| && !ClientAdopts(ks[i - 1], ks[i]) && ClientWindowIs(ks, i - 1, j)
    requires |ks[i].clientSent| >= |ks[i - 1].clientSent|
    requires ks[i].client.sndWnd == Less(ks[i - 1].client.sndWnd, |ks[i].clientSent| - |ks[i - 1].clientSent|)
    ensures ClientWindowIs(ks, i, j)
  {
    var n, more := |ks[i - 1].clientSent| - |ks[j].clientSent|, |ks[i].clientSent| - |ks[i - 1].clientSent|;
    assert ClientAdoptsAt(ks, j);
    LessLess(ks[j].s2c[0].rwnd, n, more);
    hide ClientAdopts, Less;
  }

  /** In every run, from the answer to its SYN on, the client's window is what the segment it last adopted a
      window from advertised, less the bytes it sent since, in 16 bits. */
  lemma {:induction false} ClientWindow(ks: seq<Conn>, i: nat) returns (j: int)
    requires Run(ks) && i < |ks| && ks[i].server.state != Listen && ks[i].client.state != SynSent
    ensures ClientWindowIs(ks, i, j)
  {
    StepAt(ks, i);
    hide Run, Inv, Next, ClientAdopts, ClientWindowIs;
    var k, k' := ks[i - 1], ks[i];
    ClientWindowStep(k, k');
    if ClientAdopts(k, k') {
      j := i - 1;
      ClientWindowStarts(ks, i);
    } else {
      StaysOpen(k, k');
      j := ClientWindow(ks, i - 1);
      ClientWindowGoesOn(ks, i, j);
    }
  }

  /** Only a step that adopts a window ends the handshake. */
  lemma StaysOpen(k: Conn, k': Conn)
    requires Inv(k) && Next(k, k')
    ensures !ClientAdopts(k, k') && k'.server.state != Listen && k'.client.state != SynSent ==>
      k.server.state != Listen && k.client.state != SynSent
    ensures !ServerAdopts(k, k') && k'.server.state !in {Listen, SynRecv} ==> k.server.state !in {Listen, SynRecv}
  {
    hide Plus, Streams;
    if ClientReceives(k, k') || ServerReceives(k, k') {
      ReceiptStaysOpen(k, k');
    } else {
      hide Process, Phase;
    }
  }

  lemma ReceiptStaysOpen(k: Conn, k': Conn)
    requires Phase(k) && (ClientReceives(k, k') || ServerReceives(k, k'))
    ensures !ClientAdopts(k, k') && k'.server.state != Listen && k'.client.state != SynSent ==>
      k.server.state != Listen && k.client.state != SynSent
    ensures !ServerAdopts(k, k') && k'.server.state !in {Listen, SynRecv} ==> k.server.state !in {Listen, SynRecv}
  {
    hide Plus;
  }

  /** Step j was the last before i to adopt a window; since then only bytes sent were taken off it. */
  ghost predicate ServerWindowIs(ks: seq<Conn>, i: nat, j: int) {
    && i < |ks| && LastServerAdoption(ks, i, j) && |ks[i].serverSent| >= |ks[j].serverSent|
    && ks[i].server.sndWnd == Less(ks[j].c2s[0].rwnd, |ks[i].serverSent| - |ks[j].serverSent|)
  }

  lemma ServerWindowStarts(ks: seq<Conn>, i: nat)
    requires 0 < i < |ks| && ServerAdopts(ks[i - 1], ks[i])
    requires ks[i].server.sndWnd == ks[i - 1].c2s[0].rwnd && ks[i].serverSent == ks[i - 1].serverSent
    ensures ServerWindowIs(ks, i, i - 1)
  {
    hide ServerAdopts;
    assert ServerAdoptsAt(ks, i - 1);
  }

  lemma ServerWindowGoesOn(ks: seq<Conn>, i: nat, j: int)
    requires 0 < i < |ks| && !ServerAdopts(ks[i - 1], ks[i]) && ServerWindowIs(ks, i - 1, j)
    requires |ks[i].serverSent| >= |ks[i - 1].serverSent|
    requires ks[i].server.sndWnd == Less(ks[i - 1].server.sndWnd, |ks[i].serverSent| - |ks[i - 1].serverSent|)
    ensures ServerWindowIs(ks, i, j)
  {
    var n, more := |ks[i - 1].serverSent| - |ks[j].serverSent|, |ks[i].serverSent| - |ks[i - 1].serverSent|;
    assert ServerAdoptsAt(ks, j);
    LessLess(ks[j].c2s[0].rwnd, n, more);
    hide ServerAdopts, Less;
  }

  lemma {:induction false} ServerWindow(ks: seq<Conn>, i: nat) returns (j: int)
    requires Run(ks) && i < |ks| && ks[i].server.state !in {Listen, SynRecv}
    ensures ServerWindowIs(ks, i, j)
  {
    StepAt(ks, i);
    hide Run, Inv, Next, ServerAdopts, ServerWindowIs;
    var k, k' := ks[i - 1], ks[i];
    ServerWindowStep(k, k');
    if ServerAdopts(k, k') {
      j := i - 1;
      ServerWindowStarts(ks, i);
    } else {
      StaysOpen(k, k');
      j := ServerWindow(ks, i - 1);
      ServerWindowGoesOn(ks, i, j);
    }
  }

  // ---- the window advertised

  /** The client reads, and its buffer was not empty. */
  ghost predicate ClientTakes(k: Conn, k': Conn) { k.client.queue != [] && exists n :: ClientReads(k, k', n) }

  ghost predicate ServerTakes(k: Conn, k': Conn) { k.server.queue != [] && exists n :: ServerReads(k, k', n) }

  /** The bytes that fit into the buffer. */
  function Room(s: Sock): int { s.size - 1 - |s.queue| }

  ghost predicate Sized(s: Sock) { |s.queue| < s.size <= 0x1_0000 }

  /** After a read of a nonempty buffer the advertised window is the room in the buffer, and every segment
      built then, with data or without, carries it. */
  lemma ReadAdvertisesRoom(s: Sock, n: nat, data: seq<Byte>, flags: Flags)
    requires Sized(s) && s.queue != []
    ensures var t := Take(s, n).0;
      t.rcvWnd == Room(t) == Transmit(t, data).1.rwnd == Control(t, flags).1.rwnd
  {
  }

  /** A read takes the front of the buffer, as much as is there and asked for, and nothing from an empty one. */
  lemma ReadTakesFront(s: Sock, n: nat)
    ensures var (t, data) := Take(s, n);
      && data + t.queue == s.queue && |data| == (if |s.queue| < n then |s.queue| else n)
      && t == s.(queue := t.queue, rcvWnd := t.rcvWnd) && (s.queue == [] ==> t == s)
  {
  }

  lemma ProcessKeepsAdvertised(s: Sock, g: Segment)
    ensures var t := Process(s, g).0; t.rcvWnd == s.rcvWnd && t.size == s.size
    ensures Sized(s) && Fits(s, g) ==> Sized(Process(s, g).0)
  {
    hide Plus, SegEnd;
  }

  /** Only a read of a nonempty buffer changes what is advertised, and to the room it leaves. */
  lemma AdvertisedStep(k: Conn, k': Conn)
    requires Next(k, k') && Sized(k.client) && Sized(k.server)
    ensures Sized(k'.client) && Sized(k'.server)
    ensures k'.client.rcvWnd == if ClientTakes(k, k') then Room(k'.client) else k.client.rcvWnd
    ensures k'.server.rcvWnd == if ServerTakes(k, k') then Room(k'.server) else k.server.rcvWnd
  {
    hide Plus, Process, Fits;
    if ClientReceives(k, k') {
      ProcessKeepsAdvertised(k.client, k.s2c[0]);
    } else if ServerReceives(k, k') {
      ProcessKeepsAdvertised(k.server, k.c2s[0]);
    } else if data :| ClientWrites(k, k', data) {
    } else if data :| ServerWrites(k, k', data) {
    } else if n: nat :| ClientReads(k, k', n) {
    } else if n: nat :| ServerReads(k, k', n) {
    }
  }

  ghost predicate ClientTakesAt(ks: seq<Conn>, j: int) { 0 <= j < |ks| - 1 && ClientTakes(ks[j], ks[j + 1]) }

  ghost predicate ServerTakesAt(ks: seq<Conn>, j: int) { 0 <= j < |ks| - 1 && ServerTakes(ks[j], ks[j + 1]) }

  /** In every run, what a side advertises at step i is the room that its last read of a nonempty buffer
      left (j is the step after that read), or what it started with (then j is 0). */
  ghost predicate AdvertisedSince(ks: seq<Conn>, i: nat, j: nat, m: nat) {
    && j <= i < |ks| && m <= i
    && (j > 0 ==> ClientTakesAt(ks, j - 1)) && (forall u | j <= u < i :: !ClientTakesAt(ks, u))
    && (m > 0 ==> ServerTakesAt(ks, m - 1)) && (forall u | m <= u < i :: !ServerTakesAt(ks, u))
    && ks[i].client.rcvWnd == (if j > 0 then Room(ks[j].client) else ks[0].client.rcvWnd)
    && ks[i].server.rcvWnd == (if m > 0 then Room(ks[m].server) else ks[0].server.rcvWnd)
  }

  lemma AdvertisedGoesOn(ks: seq<Conn>, i: nat, j: nat, m: nat) returns (j': nat, m': nat)
    requires i + 1 < |ks| && AdvertisedSince(ks, i, j, m)
    requires var k, k' := ks[i], ks[i + 1];
      && k'.client.rcvWnd == (if ClientTakes(k, k') then Room(k'.client) else k.client.rcvWnd)
      && k'.server.rcvWnd == (if ServerTakes(k, k') then Room(k'.server) else k.server.rcvWnd)
    ensures AdvertisedSince(ks, i + 1, j', m')
  {
    hide ClientTakes, ServerTakes, Room;
    j' := if ClientTakesAt(ks, i) then i + 1 else j;
    m' := if ServerTakesAt(ks, i) then i + 1 else m;
  }

  lemma {:induction false} AdvertisedWindow(ks: seq<Conn>, i: nat) returns (j: nat, m: nat)
    requires Run(ks) && i < |ks| && Sized(ks[0].client) && Sized(ks[0].server)
    ensures AdvertisedSince(ks, i, j, m) && Sized(ks[i].client) && Sized(ks[i].server)
  {
    if i == 0 {
      j, m := 0, 0;
    } else {
      j, m := AdvertisedWindow(ks, i - 1);
      StepAt(ks, i);
      AdvertisedStep(ks[i - 1], ks[i]);
      hide Run, Inv, Next, Sized, Room, AdvertisedSince, ClientTakes, ServerTakes;
      j, m := AdvertisedGoesOn(ks, i - 1, j, m);
    }
  }
}
