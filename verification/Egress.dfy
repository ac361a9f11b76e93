/** The resumable drain of the publisher ring into a viewer's SRT socket
    (`CSLSRole::handler_write_data` and `update_egress_arming`,
    sls-patch/src/core/SLSRole.cpp), over arbitrary ring and socket behaviour. */
module Egress {
  import opened Bytes

  /** Sixteen datagrams. */
  const DATA_BUFF_SIZE := 21056
  const MAX_EGRESS_BATCHES := 2

  /** A reply of the ring: a negative code, nothing new, or whole datagrams. */
  datatype RingReply = NoStream | CaughtUp | Batch(bytes: seq<byte>)

  /** A reply of the socket to one 1316-byte message: taken, send buffer full
      (EASYNCSND), fewer bytes reported than offered, or any other failure.  The SRT
      message API is all-or-nothing, so anything but `Accepted` means not taken. */
  datatype SocketReply = Accepted | WouldBlock | ShortWrite | Failed

  /** Everything outside the role: what the k-th ring and socket call will answer, and
      a log of the bytes that have passed in each direction. */
  class World {
    const ring: nat -> RingReply
    const socket: nat -> SocketReply
    var ringCalls: nat
    var socketCalls: nat
    var fetched: seq<byte>
    var sent: seq<byte>
    var messages: nat

    constructor (ring: nat -> RingReply, socket: nat -> SocketReply)
      ensures this.ring == ring && this.socket == socket
      ensures ringCalls == 0 && socketCalls == 0 && fetched == [] && sent == [] && messages == 0
    {
      this.ring, this.socket := ring, socket;
      ringCalls, socketCalls, fetched, sent, messages := 0, 0, [], [], 0;
    }
  }

  /** `CSLSRecycleArray::get` with alignment 1316 and the bootstrap block of
      `CSLSMapData::get` only ever return whole datagrams that fit the buffer. */
  ghost predicate LegalRing(ring: nat -> RingReply) {
    forall k: nat :: ring(k).Batch? ==>
      0 < |ring(k).bytes| <= DATA_BUFF_SIZE && |ring(k).bytes| % TS_UDP_LEN == 0
  }

  /** Concatenation of the batches among ring replies `a..b`. */
  ghost function Batches(ring: nat -> RingReply, a: nat, b: nat): seq<byte>
    requires a <= b
  {
    if a == b then []
    else Batches(ring, a, b - 1) + if ring(b - 1).Batch? then ring(b - 1).bytes else []
  }

  ghost predicate AllAccepted(socket: nat -> SocketReply, a: nat, b: nat) {
    forall k: nat :: a <= k < b ==> socket(k).Accepted?
  }

  function StuckTimeout(latency: int): int {
    if latency * 3 > 500 then latency * 3 else 500
  }

  datatype Outcome = Written(size: nat) | Error

  /** What one call tells the stuck timer: was any message taken, did the call end in
      EASYNCSND, and when. */
  datatype Beat = Beat(progress: bool, blocked: bool, now: int)

  /** Start of the current streak of backpressure without progress; 0 for none. */
  function SinceAfter(since: int, b: Beat): int {
    var base := if b.progress then 0 else since;
    if b.blocked && base == 0 then b.now else base
  }

  /** The call gives the viewer up. */
  predicate Kicks(since: int, b: Beat, timeout: int) {
    b.blocked && !b.progress && since != 0 && b.now - since > timeout
  }

  ghost predicate AllBatches(ring: nat -> RingReply, a: nat, b: nat) {
    forall k: nat :: a <= k < b ==> ring(k).Batch?
  }

  /** Both logs and the bytes between them. */
  datatype Traffic = Traffic(ringCalls: nat, socketCalls: nat, fetched: seq<byte>, sent: seq<byte>,
                             messages: nat, staged: seq<byte>)

  /** The stuck timer and the backpressure count. */
  datatype Gauge = Gauge(stuckSince: int, backpressure: nat)

  /** Nothing is lost, repeated or reordered between the ring and the socket, and what
      is sent is sent in whole messages. */
  ghost predicate Conserves(ring: nat -> RingReply, a: Traffic, b: Traffic) {
    && a.ringCalls <= b.ringCalls && a.messages <= b.messages && a.sent <= b.sent
    && b.fetched == a.fetched + Batches(ring, a.ringCalls, b.ringCalls)
    && a.staged + Batches(ring, a.ringCalls, b.ringCalls) == b.sent[|a.sent|..] + b.staged
    && |b.sent| == |a.sent| + TS_UDP_LEN * (b.messages - a.messages)
  }

  /** The socket is asked until it refuses, and never again in the same call; bytes
      stay staged exactly when it has refused. */
  ghost predicate AsksUntilRefused(socket: nat -> SocketReply, a: Traffic, b: Traffic)
    requires a.messages <= b.messages
  {
    var asked := a.socketCalls + (b.messages - a.messages);
    && AllAccepted(socket, a.socketCalls, asked)
    && if b.staged == [] then b.socketCalls == asked
       else b.socketCalls == asked + 1 && !socket(asked).Accepted?
  }

  /** At most two buffers are drained, and with nothing left staged it stops earlier
      only when the ring has nothing more. */
  ghost predicate DrainsTwoBuffers(ring: nat -> RingReply, a: Traffic, b: Traffic)
    requires a.ringCalls <= b.ringCalls
  {
    var buffers := (if a.staged == [] then 0 else 1) + (b.ringCalls - a.ringCalls);
    var dry := b.ringCalls > a.ringCalls && !ring(b.ringCalls - 1).Batch?;
    && buffers <= MAX_EGRESS_BATCHES
    && AllBatches(ring, a.ringCalls, if dry then b.ringCalls - 1 else b.ringCalls)
    && (b.staged != [] ==> !dry)
    && (b.staged == [] ==> dry || buffers == MAX_EGRESS_BATCHES)
  }

  /** Result, stuck timer and backpressure count of a call. */
  ghost predicate Reports(socket: nat -> SocketReply, timeout: int, now: int, a: Traffic, b: Traffic,
                          g: Gauge, h: Gauge, r: Outcome)
    requires a.messages <= b.messages && |a.sent| <= |b.sent|
  {
    var reply := socket(a.socketCalls + (b.messages - a.messages));
    var beat := Beat(b.messages > a.messages, b.staged != [] && reply.WouldBlock?, now);
    && r == (if (b.staged != [] && reply.Failed?) || Kicks(g.stuckSince, beat, timeout) then Error
             else Written(|b.sent| - |a.sent|))
    && h == Gauge(SinceAfter(g.stuckSince, beat), g.backpressure + (if beat.blocked then 1 else 0))
  }

  /** A batch is fetched only if nothing is staged, and then it is what is staged. */
  ghost predicate Refilled(ring: nat -> RingReply, a: Traffic, b: Traffic) {
    && b.ringCalls == a.ringCalls + (if a.staged == [] then 1 else 0)
    && b.socketCalls == a.socketCalls && b.sent == a.sent && b.messages == a.messages
    && b.fetched == a.fetched + Batches(ring, a.ringCalls, b.ringCalls)
    && b.staged == a.staged + Batches(ring, a.ringCalls, b.ringCalls)
    && (a.staged == [] ==> (b.staged != [] <==> ring(a.ringCalls).Batch?))
  }

  /** Staged bytes left in whole messages until the socket refused one, or all are gone. */
  ghost predicate Sent(socket: nat -> SocketReply, a: Traffic, b: Traffic, refusal: Option<SocketReply>, taken: nat) {
    && b.ringCalls == a.ringCalls && b.fetched == a.fetched && a.sent <= b.sent && a.messages <= b.messages
    && taken == |b.sent| - |a.sent| == TS_UDP_LEN * (b.messages - a.messages)
    && a.staged == b.sent[|a.sent|..] + b.staged
    && var asked := a.socketCalls + (b.messages - a.messages);
    && AllAccepted(socket, a.socketCalls, asked)
    && match refusal
       case None => b.staged == [] && b.socketCalls == asked && b.messages > a.messages
       case Some(reply) =>
         b.staged != [] && b.socketCalls == asked + 1 && reply == socket(asked) && !reply.Accepted?
  }

  /** One turn of the outer loop; not `ready` when the ring had nothing. */
  ghost predicate Turn(ring: nat -> RingReply, socket: nat -> SocketReply, a: Traffic, b: Traffic, ready: bool,
                       refusal: Option<SocketReply>, taken: nat) {
    && Conserves(ring, a, b) && taken == |b.sent| - |a.sent|
    && b.ringCalls == a.ringCalls + (if a.staged == [] then 1 else 0)
    && (if a.staged == [] then ready == ring(a.ringCalls).Batch? else ready)
    && var asked := a.socketCalls + (b.messages - a.messages);
    && AllAccepted(socket, a.socketCalls, asked)
    && match refusal
       case None => b.staged == [] && b.socketCalls == asked && (ready <==> b.messages > a.messages)
       case Some(reply) =>
         ready && b.staged != [] && b.socketCalls == asked + 1 && reply == socket(asked) && !reply.Accepted?
  }

  /** What `batch` full turns of one call have done. */
  ghost predicate Turns(ring: nat -> RingReply, socket: nat -> SocketReply, a: Traffic, b: Traffic, batch: nat) {
    && Conserves(ring, a, b)
    && (batch == 0 ==> b == a)
    && (batch > 0 ==>
          b.staged == [] && b.messages > a.messages
          && b.ringCalls - a.ringCalls == batch - (if a.staged == [] then 0 else 1))
    && AllBatches(ring, a.ringCalls, b.ringCalls)
    && (b.ringCalls > a.ringCalls ==> ring(b.ringCalls - 1).Batch?)
    && b.socketCalls == a.socketCalls + (b.messages - a.messages)
    && AllAccepted(socket, a.socketCalls, b.socketCalls)
  }

  class Viewer {
    const data: array<byte>
    var dataPos: nat
    var dataLen: nat
    var stuckSince: int
    var outArmed: bool
    var backpressureCount: nat
    const latency: int
    const isWrite: bool

    constructor (latency: int, isWrite: bool)
      ensures Valid() && Staged() == [] && !outArmed && stuckSince == 0
      ensures fresh(data) && this.latency == latency && this.isWrite == isWrite
    {
      data := new byte[DATA_BUFF_SIZE](_ => 0);
      dataPos, dataLen, stuckSince, outArmed, backpressureCount := 0, 0, 0, false, 0;
      this.latency, this.isWrite := latency, isWrite;
    }

    /** Between calls: the cursor is aligned, and either nothing is staged and both
        ends are 0, or the staged part is not empty. */
    predicate Valid()
      reads this`dataPos, this`dataLen
    {
      && data.Length == DATA_BUFF_SIZE
      && dataPos <= dataLen <= DATA_BUFF_SIZE
      && dataPos % TS_UDP_LEN == 0 && dataLen % TS_UDP_LEN == 0
      && (dataPos == dataLen ==> dataLen == 0)
    }

    /** Bytes fetched from the ring and not yet taken by the socket. */
    function Staged(): seq<byte>
      requires dataPos <= dataLen <= data.Length
      reads this`dataPos, this`dataLen, data
    {
      data[dataPos..dataLen]
    }

    function Look(w: World): Traffic
      requires dataPos <= dataLen <= data.Length
      reads this`dataPos, this`dataLen, data, w
    {
      Traffic(w.ringCalls, w.socketCalls, w.fetched, w.sent, w.messages, Staged())
    }

    function Gauges(): Gauge
      reads this
    {
      Gauge(stuckSince, backpressureCount)
    }

    /** The inner loop: one message after the other until the buffer is empty or the
        socket refuses one. */
    method DrainBuffer(w: World) returns (refusal: Option<SocketReply>)
      requires Valid() && dataPos < dataLen
      modifies this`dataPos, this`stuckSince, w`socketCalls, w`sent, w`messages
      ensures dataPos <= dataLen && dataPos == old(dataPos) + TS_UDP_LEN * (w.messages - old(w.messages))
      ensures old(w.messages) <= w.messages
      ensures w.sent == old(w.sent) + data[old(dataPos)..dataPos]
      ensures AllAccepted(w.socket, old(w.socketCalls), old(w.socketCalls) + (w.messages - old(w.messages)))
      ensures var asked := old(w.socketCalls) + (w.messages - old(w.messages));
        match refusal
        case None => dataPos == dataLen && w.socketCalls == asked
        case Some(reply) =>
          dataPos < dataLen && w.socketCalls == asked + 1 && reply == w.socket(asked) && !reply.Accepted?
      ensures stuckSince == if w.messages > old(w.messages) then 0 else old(stuckSince)
    {
      ghost var pos0, calls0, sent0, messages0 := dataPos, w.socketCalls, w.sent, w.messages;
      assert sent0 == sent0 + data[pos0..pos0];
      while dataLen - dataPos >= TS_UDP_LEN
        invariant messages0 <= w.messages
        invariant pos0 <= dataPos <= dataLen && dataPos == pos0 + TS_UDP_LEN * (w.messages - messages0)
        invariant w.sent == sent0 + data[pos0..dataPos]
        invariant w.socketCalls == calls0 + (w.messages - messages0)
        invariant AllAccepted(w.socket, calls0, w.socketCalls)
        invariant stuckSince == if w.messages > messages0 then 0 else old(stuckSince)
      {
        var reply := w.socket(w.socketCalls);
        w.socketCalls := w.socketCalls + 1;
        if reply != Accepted {
          return Some(reply);
        }
        assert data[pos0..dataPos + TS_UDP_LEN] == data[pos0..dataPos] + data[dataPos..dataPos + TS_UDP_LEN];
        w.sent := w.sent + data[dataPos..dataPos + TS_UDP_LEN];
        w.messages := w.messages + 1;
        dataPos := dataPos + TS_UDP_LEN;
        stuckSince := 0;
      }
      refusal := None;
    }

    /** The top of the outer loop: fetch a batch unless one is staged.  False when the
        ring has nothing to give. */
    method Refill(w: World) returns (ready: bool)
      requires Valid() && LegalRing(w.ring)
      modifies this`dataPos, this`dataLen, data, w`ringCalls, w`fetched
      ensures Valid() && ready == (Staged() != [])
      ensures Refilled(w.ring, old(Look(w)), Look(w))
    {
      hide Batches, LegalRing;
      ghost var a, r0 := Look(w), w.ringCalls;
      BatchesOfOne(w.ring, r0);
      LegalAt(w.ring, r0);
      assert a.staged + [] == a.staged && a.fetched + [] == a.fetched;
      if dataLen < TS_UDP_LEN {
        var reply := w.ring(w.ringCalls);
        w.ringCalls := w.ringCalls + 1;
        if !reply.Batch? {
          return false;
        }
        Store(data, 0, reply.bytes);
        dataPos := 0;
        dataLen := |reply.bytes|;
        w.fetched := w.fetched + reply.bytes;
        assert Staged() == reply.bytes == [] + reply.bytes;
      }
      ready := true;
    }

    /** One turn of the outer loop. */
    method OneBatch(w: World) returns (ready: bool, refusal: Option<SocketReply>, taken: nat)
      requires Valid() && LegalRing(w.ring)
      modifies this`dataPos, this`dataLen, this`stuckSince, data
      modifies w`ringCalls, w`socketCalls, w`fetched, w`sent, w`messages
      ensures Valid()
      ensures Turn(w.ring, w.socket, old(Look(w)), Look(w), ready, refusal, taken)
      ensures stuckSince == if Look(w).messages > old(Look(w)).messages then 0 else old(stuckSince)
    {
      hide Batches, Turn, Sent, LegalRing;
      ghost var start := Look(w);
      refusal, taken := None, 0;
      ready := Refill(w);
      ghost var mid := Look(w);
      if ready {
        refusal, taken := SendStaged(w);
        TurnSends(w.ring, w.socket, start, mid, Look(w), refusal, taken);
      } else {
        TurnIsDry(w.ring, w.socket, start, mid);
      }
    }

    /** The send half of the outer loop: the staged bytes, and a fresh start when they
        are all gone. */
    method SendStaged(w: World) returns (refusal: Option<SocketReply>, taken: nat)
      requires Valid() && Staged() != []
      modifies this`dataPos, this`dataLen, this`stuckSince, w`socketCalls, w`sent, w`messages
      ensures Valid() && Sent(w.socket, old(Look(w)), Look(w), refusal, taken)
      ensures stuckSince == if w.messages > old(w.messages) then 0 else old(stuckSince)
    {
      hide AllAccepted;
      ghost var sent0, pos := w.sent, dataPos;
      var before := dataPos;
      refusal := DrainBuffer(w);
      taken := dataPos - before;
      assert w.sent[|sent0|..] == data[pos..dataPos];
      assert data[pos..dataLen] == data[pos..dataPos] + data[dataPos..dataLen];
      if refusal.None? {
        dataPos, dataLen := 0, 0;
      }
    }

    /** One EASYNCSND: start or check the stuck timer.  True when the viewer has made
        no progress for longer than the timeout. */
    method NoteBackpressure(now: int) returns (stuck: bool)
      modifies this`stuckSince, this`backpressureCount
      ensures stuck == (old(stuckSince) != 0 && now - old(stuckSince) > StuckTimeout(latency))
      ensures stuckSince == if old(stuckSince) == 0 then now else old(stuckSince)
      ensures backpressureCount == old(backpressureCount) + 1
    {
      backpressureCount := backpressureCount + 1;
      stuck := false;
      if stuckSince == 0 {
        stuckSince := now;
      } else if now - stuckSince > StuckTimeout(latency) {
        stuck := true;
      }
    }

    /** How a call ends when the socket has refused a message. */
    method AnswerRefusal(reply: SocketReply, size: nat, now: int) returns (r: Outcome)
      requires reply != Accepted
      modifies this`stuckSince, this`backpressureCount
      ensures var since := old(stuckSince);
        match reply
        case WouldBlock =>
          && r == (if since != 0 && now - since > StuckTimeout(latency) then Error else Written(size))
          && Gauges() == Gauge(if since == 0 then now else since, old(backpressureCount) + 1)
        case Failed => r == Error && Gauges() == old(Gauges())
        case _ => r == Written(size) && Gauges() == old(Gauges())
    {
      if reply == WouldBlock {
        var stuck := NoteBackpressure(now);
        return if stuck then Error else Written(size);
      }
      if reply == Failed {
        return Error;
      }
      return Written(size);
    }

    /** `handler_write_data` behind its guards: at most two buffers are drained. */
    method Drain(w: World, now: int) returns (r: Outcome)
      requires Valid() && LegalRing(w.ring)
      modifies this`dataPos, this`dataLen, this`stuckSince, this`backpressureCount, data
      modifies w`ringCalls, w`socketCalls, w`fetched, w`sent, w`messages
      ensures Valid()
      ensures Conserves(w.ring, old(Look(w)), Look(w))
      ensures AsksUntilRefused(w.socket, old(Look(w)), Look(w))
      ensures DrainsTwoBuffers(w.ring, old(Look(w)), Look(w))
      ensures Reports(w.socket, StuckTimeout(latency), now, old(Look(w)), Look(w), old(Gauges()), Gauges(), r)
    {
      hide Batches, Conserves, Turn, Turns, AsksUntilRefused, DrainsTwoBuffers, Reports, LegalRing, StuckTimeout, Look, Staged;
      ghost var start, since, gauge := Look(w), stuckSince, Gauges();
      NoTurns(w.ring, w.socket, start);
      var size := 0;
      var batch := 0;
      while batch < MAX_EGRESS_BATCHES
        invariant 0 <= batch <= MAX_EGRESS_BATCHES && Valid()
        invariant Turns(w.ring, w.socket, start, Look(w), batch) && size == |Look(w).sent| - |start.sent|
        invariant start.messages <= Look(w).messages
        invariant Gauges() == Gauge(if Look(w).messages > start.messages then 0 else since, gauge.backpressure)
      {
        ghost var mid := Look(w);
        var ready, refusal, taken := OneBatch(w);
        if ready && refusal.None? {
          TurnsGoOn(w.ring, w.socket, start, mid, Look(w), batch, taken);
        } else {
          TurnsEnd(w.ring, w.socket, start, mid, Look(w), batch, ready, refusal, taken);
          ghost var base := Gauges();
          ReportsFrom(w.socket, StuckTimeout(latency), now, start, Look(w), gauge, base, refusal);
        }
        if !ready {
          break;
        }
        size := size + taken;
        if refusal.Some? {
          r := AnswerRefusal(refusal.value, size, now);
          return;
        }
        batch := batch + 1;
      }
      if batch == MAX_EGRESS_BATCHES {
        TurnsFull(w.ring, w.socket, start, Look(w));
        ReportsFrom(w.socket, StuckTimeout(latency), now, start, Look(w), gauge, Gauges(), None);
      }
      return Written(size);
    }

    /** `handler_write_data`.  `waiting` is a pending publish-auth webhook; the role may
        have lost its socket, its ring map or its key. */
    method HandlerWriteData(w: World, now: int, waiting: bool, hasSocket: bool, hasMap: bool, hasKey: bool)
      returns (r: Outcome)
      requires Valid() && LegalRing(w.ring)
      modifies this`dataPos, this`dataLen, this`stuckSince, this`backpressureCount, data
      modifies w`ringCalls, w`socketCalls, w`fetched, w`sent, w`messages
      ensures Valid()
      ensures waiting || !hasSocket || !hasMap || !hasKey ==>
        r == (if waiting then Written(0) else Error) && Look(w) == old(Look(w)) && Gauges() == old(Gauges())
      ensures !waiting && hasSocket && hasMap && hasKey ==>
        && Conserves(w.ring, old(Look(w)), Look(w))
        && AsksUntilRefused(w.socket, old(Look(w)), Look(w))
        && DrainsTwoBuffers(w.ring, old(Look(w)), Look(w))
        && Reports(w.socket, StuckTimeout(latency), now, old(Look(w)), Look(w), old(Gauges()), Gauges(), r)
    {
      hide Conserves, AsksUntilRefused, DrainsTwoBuffers, Reports, StuckTimeout;
      if waiting {
        return Written(0);
      }
      if !hasSocket || !hasMap || !hasKey {
        return Error;
      }
      r := Drain(w, now);
    }

    /** `update_egress_arming` and `set_epoll_out`: ask for writability events exactly
        while bytes are staged.  `armOk` is the answer of the epoll call. */
    method UpdateEgressArming(hasSocket: bool, armOk: bool)
      requires Valid()
      modifies this`outArmed
      ensures isWrite && hasSocket && armOk ==> (outArmed <==> Staged() != [])
      ensures !(isWrite && hasSocket && armOk) ==> outArmed == old(outArmed)
    {
      if !isWrite {
        return;
      }
      var enable := dataPos < dataLen;
      if hasSocket && enable != outArmed && armOk {
        outArmed := enable;
      }
    }
  }

  lemma {:induction false} BatchesSplit(ring: nat -> RingReply, a: nat, b: nat, c: nat)
    requires a <= b <= c
    ensures Batches(ring, a, c) == Batches(ring, a, b) + Batches(ring, b, c)
  {
    if b < c {
      BatchesSplit(ring, a, b, c - 1);
    }
  }

  lemma Nothing(ring: nat -> RingReply, socket: nat -> SocketReply, a: Traffic)
    ensures Conserves(ring, a, a)
    ensures AllAccepted(socket, a.socketCalls, a.socketCalls) && AllBatches(ring, a.ringCalls, a.ringCalls)
  {
    assert a.staged + [] == a.sent[|a.sent|..] + a.staged;
  }

  lemma BatchesOfOne(ring: nat -> RingReply, k: nat)
    ensures Batches(ring, k, k) == [] && Batches(ring, k, k + 1) == if ring(k).Batch? then ring(k).bytes else []
  {
    assert Batches(ring, k, k) == [];
  }

  lemma LegalAt(ring: nat -> RingReply, k: nat)
    requires LegalRing(ring)
    ensures ring(k).Batch? ==> 0 < |ring(k).bytes| <= DATA_BUFF_SIZE && |ring(k).bytes| % TS_UDP_LEN == 0
  {
  }

  lemma FromParts(ring: nat -> RingReply, a: Traffic, b: Traffic, out: seq<byte>)
    requires a.ringCalls <= b.ringCalls && a.messages <= b.messages
    requires b.sent == a.sent + out && |out| == TS_UDP_LEN * (b.messages - a.messages)
    requires b.fetched == a.fetched + Batches(ring, a.ringCalls, b.ringCalls)
    requires a.staged + Batches(ring, a.ringCalls, b.ringCalls) == out + b.staged
    ensures Conserves(ring, a, b)
  {
    hide Batches;
    assert b.sent[|a.sent|..] == out;
  }

  /** A refill, then a send. */
  lemma TurnSends(ring: nat -> RingReply, socket: nat -> SocketReply, a: Traffic, mid: Traffic, b: Traffic,
                  refusal: Option<SocketReply>, taken: nat)
    requires Refilled(ring, a, mid) && mid.staged != [] && Sent(socket, mid, b, refusal, taken)
    ensures Turn(ring, socket, a, b, true, refusal, taken)
  {
    hide Batches, AllAccepted, Conserves;
    assert b.sent == a.sent + b.sent[|mid.sent|..];
    FromParts(ring, a, b, b.sent[|mid.sent|..]);
  }

  /** A refill that finds nothing. */
  lemma TurnIsDry(ring: nat -> RingReply, socket: nat -> SocketReply, a: Traffic, b: Traffic)
    requires Refilled(ring, a, b) && b.staged == []
    ensures Turn(ring, socket, a, b, false, None, 0)
  {
    hide Batches, Conserves;
    assert b.staged == [] + b.staged;
    FromParts(ring, a, b, []);
  }

  lemma CountsAgree(ring: nat -> RingReply, a: Traffic, b: Traffic)
    requires Conserves(ring, a, b)
    ensures a.ringCalls <= b.ringCalls && a.messages <= b.messages
    ensures |b.sent| == |a.sent| + TS_UDP_LEN * (b.messages - a.messages)
  {
  }

  lemma AcceptedJoin(socket: nat -> SocketReply, a: nat, b: nat, c: nat)
    ensures AllAccepted(socket, a, b) && AllAccepted(socket, b, c) ==> AllAccepted(socket, a, c)
  {
  }

  lemma BatchJoin(ring: nat -> RingReply, a: nat, b: nat)
    ensures AllBatches(ring, a, b) && ring(b).Batch? ==> AllBatches(ring, a, b + 1)
  {
  }

  /** Two conservation steps make one. */
  lemma ConservesJoin(ring: nat -> RingReply, a: Traffic, b: Traffic, c: Traffic)
    requires Conserves(ring, a, b) && Conserves(ring, b, c)
    ensures Conserves(ring, a, c)
  {
    hide Batches;
    BatchesSplit(ring, a.ringCalls, b.ringCalls, c.ringCalls);
    var got1, got2 := Batches(ring, a.ringCalls, b.ringCalls), Batches(ring, b.ringCalls, c.ringCalls);
    var out1, out2 := b.sent[|a.sent|..], c.sent[|b.sent|..];
    assert c.sent[|a.sent|..] == out1 + out2;
    assert a.staged + (got1 + got2) == (a.staged + got1) + got2;
    assert (out1 + b.staged) + got2 == out1 + (b.staged + got2);
    assert (out1 + out2) + c.staged == out1 + (out2 + c.staged);
    assert a.fetched + (got1 + got2) == (a.fetched + got1) + got2;
  }

  /** What the turns of one call have done so far, and one more turn. */
  lemma TurnJoins(ring: nat -> RingReply, socket: nat -> SocketReply, a: Traffic, b: Traffic, c: Traffic)
    requires Conserves(ring, a, b) && Conserves(ring, b, c)
    ensures Conserves(ring, a, c)
    ensures a.ringCalls <= b.ringCalls <= c.ringCalls && a.messages <= b.messages <= c.messages
    ensures |b.sent| == |a.sent| + TS_UDP_LEN * (b.messages - a.messages)
    ensures |c.sent| == |b.sent| + TS_UDP_LEN * (c.messages - b.messages)
    ensures var asked := b.socketCalls + (c.messages - b.messages);
      AllAccepted(socket, a.socketCalls, b.socketCalls) && AllAccepted(socket, b.socketCalls, asked) ==>
        AllAccepted(socket, a.socketCalls, asked)
    ensures AllBatches(ring, a.ringCalls, b.ringCalls) && ring(b.ringCalls).Batch? ==>
      AllBatches(ring, a.ringCalls, b.ringCalls + 1)
  {
    hide Batches, Conserves, AllAccepted, AllBatches;
    ConservesJoin(ring, a, b, c);
    CountsAgree(ring, a, b);
    CountsAgree(ring, b, c);
    AcceptedJoin(socket, a.socketCalls, b.socketCalls, b.socketCalls + (c.messages - b.messages));
    BatchJoin(ring, a.ringCalls, b.ringCalls);
  }

  lemma NoTurns(ring: nat -> RingReply, socket: nat -> SocketReply, a: Traffic)
    ensures Turns(ring, socket, a, a, 0)
  {
    hide Conserves;
    Nothing(ring, socket, a);
  }

  /** One more full turn. */
  lemma TurnsGoOn(ring: nat -> RingReply, socket: nat -> SocketReply, a: Traffic, mid: Traffic, b: Traffic, batch: nat,
                  taken: nat)
    requires Turns(ring, socket, a, mid, batch) && Turn(ring, socket, mid, b, true, None, taken)
    ensures Turns(ring, socket, a, b, batch + 1) && b.messages > mid.messages
    ensures |b.sent| - |a.sent| == |mid.sent| - |a.sent| + taken
  {
    hide Batches, Conserves, AllAccepted, AllBatches;
    TurnJoins(ring, socket, a, mid, b);
  }

  /** The turn in which the ring had nothing or the socket refused. */
  lemma TurnsEnd(ring: nat -> RingReply, socket: nat -> SocketReply, a: Traffic, mid: Traffic, b: Traffic, batch: nat,
                 ready: bool, refusal: Option<SocketReply>, taken: nat)
    requires Turns(ring, socket, a, mid, batch) && batch < MAX_EGRESS_BATCHES
    requires Turn(ring, socket, mid, b, ready, refusal, taken) && !(ready && refusal.None?)
    ensures Conserves(ring, a, b) && a.ringCalls <= b.ringCalls && mid.messages <= b.messages && a.messages <= b.messages
    ensures AsksUntilRefused(socket, a, b) && DrainsTwoBuffers(ring, a, b)
    ensures |b.sent| - |a.sent| == |mid.sent| - |a.sent| + taken && |b.sent| >= |a.sent|
    ensures !ready ==> taken == 0 && refusal.None?
    ensures (b.staged != [] <==> refusal.Some?)
    ensures refusal.Some? ==> refusal.value == socket(a.socketCalls + (b.messages - a.messages)) != Accepted
  {
    hide Batches, Conserves, AllAccepted, AllBatches;
    TurnJoins(ring, socket, a, mid, b);
  }

  /** Two full turns end the call. */
  lemma TurnsFull(ring: nat -> RingReply, socket: nat -> SocketReply, a: Traffic, b: Traffic)
    requires Turns(ring, socket, a, b, MAX_EGRESS_BATCHES)
    ensures Conserves(ring, a, b) && a.ringCalls <= b.ringCalls && a.messages <= b.messages && |a.sent| <= |b.sent|
    ensures AsksUntilRefused(socket, a, b) && DrainsTwoBuffers(ring, a, b) && b.staged == []
  {
    hide Batches, AllAccepted, AllBatches;
  }

  /** The report of a call, by the way it ended: `base` is the gauge before a refusal is
      noted. */
  lemma ReportsFrom(socket: nat -> SocketReply, timeout: int, now: int, a: Traffic, b: Traffic, g: Gauge, base: Gauge,
                    refusal: Option<SocketReply>)
    requires a.messages <= b.messages && |a.sent| <= |b.sent|
    requires base == Gauge(if b.messages > a.messages then 0 else g.stuckSince, g.backpressure)
    requires b.staged != [] <==> refusal.Some?
    requires refusal.Some? ==> refusal.value == socket(a.socketCalls + (b.messages - a.messages)) != Accepted
    ensures var since := base.stuckSince; var size := |b.sent| - |a.sent|;
      match refusal
      case Some(WouldBlock) =>
        Reports(socket, timeout, now, a, b, g,
                Gauge(if since == 0 then now else since, base.backpressure + 1),
                if since != 0 && now - since > timeout then Error else Written(size))
      case Some(Failed) => Reports(socket, timeout, now, a, b, g, base, Error)
      case _ => Reports(socket, timeout, now, a, b, g, base, Written(size))
  {
  }

  /** One call sends at most two buffers. */
  lemma CallSendsAtMostTwoBuffers(ring: nat -> RingReply, a: Traffic, b: Traffic)
    requires LegalRing(ring) && |a.staged| <= DATA_BUFF_SIZE
    requires Conserves(ring, a, b) && DrainsTwoBuffers(ring, a, b)
    ensures |b.sent| - |a.sent| <= 2 * DATA_BUFF_SIZE
  {
    hide Batches;
    BatchesBounded(ring, a.ringCalls, b.ringCalls);
    assert |a.staged + Batches(ring, a.ringCalls, b.ringCalls)| == |b.sent[|a.sent|..] + b.staged|;
  }

  lemma {:induction false} BatchesBounded(ring: nat -> RingReply, a: nat, b: nat)
    requires a <= b && LegalRing(ring)
    ensures |Batches(ring, a, b)| <= (b - a) * DATA_BUFF_SIZE
  {
    if a < b {
      BatchesBounded(ring, a, b - 1);
    }
  }

  // ------------------------------------------------------------- whole runs

  /** One pass of the worker over the role. */
  datatype Pass = Pass(now: int, waiting: bool, hasSocket: bool, hasMap: bool, hasKey: bool, armOk: bool)

  predicate Serves(p: Pass) { !p.waiting && p.hasSocket && p.hasMap && p.hasKey }

  /** What a pass told the stuck timer, read off the traffic before and after it. */
  ghost function BeatOf(socket: nat -> SocketReply, p: Pass, a: Traffic, b: Traffic): Beat {
    Beat(b.messages > a.messages,
         b.messages >= a.messages && Serves(p) && b.staged != []
         && socket(a.socketCalls + (b.messages - a.messages)).WouldBlock?,
         p.now)
  }

  /** One pass took the traffic from `a` to `b` and answered `r`. */
  ghost predicate Passed(ring: nat -> RingReply, socket: nat -> SocketReply, timeout: int, since: int, p: Pass,
                         a: Traffic, b: Traffic, r: Outcome) {
    && Conserves(ring, a, b)
    && if !Serves(p) then b == a && r == (if p.waiting then Written(0) else Error)
       else
         && AsksUntilRefused(socket, a, b) && DrainsTwoBuffers(ring, a, b)
         && var refused := b.staged != [] && socket(a.socketCalls + (b.messages - a.messages)).Failed?;
         r == if refused || Kicks(since, BeatOf(socket, p, a, b), timeout) then Error
              else Written(|b.sent| - |a.sent|)
  }

  /** Pass `i` of a run, with the stuck timer that the passes before it have left. */
  ghost predicate PassedAt(ring: nat -> RingReply, socket: nat -> SocketReply, timeout: int, passes: seq<Pass>,
                           log: seq<Traffic>, beats: seq<Beat>, results: seq<Outcome>, i: nat)
    requires i < |passes| && i + 1 < |log| && i < |beats| && i < |results|
  {
    && beats[i] == BeatOf(socket, passes[i], log[i], log[i + 1])
    && Passed(ring, socket, timeout, Since(beats[..i]), passes[i], log[i], log[i + 1], results[i])
  }

  method OnePass(v: Viewer, w: World, p: Pass) returns (r: Outcome)
    requires v.Valid() && LegalRing(w.ring)
    modifies v`dataPos, v`dataLen, v`stuckSince, v`backpressureCount, v`outArmed, v.data
    modifies w`ringCalls, w`socketCalls, w`fetched, w`sent, w`messages
    ensures v.Valid()
    ensures Passed(w.ring, w.socket, StuckTimeout(v.latency), old(v.stuckSince), p, old(v.Look(w)), v.Look(w), r)
    ensures v.stuckSince == SinceAfter(old(v.stuckSince), BeatOf(w.socket, p, old(v.Look(w)), v.Look(w)))
    ensures v.isWrite && p.hasSocket && p.armOk ==> (v.outArmed <==> v.Staged() != [])
  {
    hide AsksUntilRefused, DrainsTwoBuffers, Conserves, StuckTimeout;
    ghost var a := v.Look(w);
    Nothing(w.ring, w.socket, a);
    r := v.HandlerWriteData(w, p.now, p.waiting, p.hasSocket, p.hasMap, p.hasKey);
    ghost var b := v.Look(w);
    CountsAgree(w.ring, a, b);
    v.UpdateEgressArming(p.hasSocket, p.armOk);
    assert v.Look(w) == b;
  }

  /** Exactly once and in order, over any number of passes and any behaviour of the
      ring and the socket: what the socket has taken, followed by what is staged, is
      what was staged at the start followed by the batches of all ring calls made.  The
      log of the run shows what every pass did, and the stuck timer is that of the beats
      the passes gave. */
  method RunPasses(v: Viewer, w: World, passes: seq<Pass>)
    returns (results: seq<Outcome>, ghost log: seq<Traffic>, ghost beats: seq<Beat>)
    requires v.Valid() && LegalRing(w.ring) && v.stuckSince == 0
    modifies v`dataPos, v`dataLen, v`stuckSince, v`backpressureCount, v`outArmed, v.data
    modifies w`ringCalls, w`socketCalls, w`fetched, w`sent, w`messages
    ensures v.Valid()
    ensures Conserves(w.ring, old(v.Look(w)), v.Look(w))
    ensures |results| == |beats| == |passes| && |log| == |passes| + 1
    ensures log[0] == old(v.Look(w)) && log[|passes|] == v.Look(w)
    ensures forall i :: 0 <= i < |passes| ==>
      PassedAt(w.ring, w.socket, StuckTimeout(v.latency), passes, log, beats, results, i)
    ensures v.stuckSince == Since(beats)
    ensures |passes| > 0 && v.isWrite && passes[|passes| - 1].hasSocket && passes[|passes| - 1].armOk ==>
      (v.outArmed <==> v.Staged() != [])
  {
    hide Passed, PassedAt, BeatOf, Conserves, StuckTimeout;
    ghost var start := v.Look(w);
    Nothing(w.ring, w.socket, start);
    results, log, beats := [], [start], [];
    for k := 0 to |passes|
      invariant v.Valid() && Conserves(w.ring, start, v.Look(w))
      invariant |results| == |beats| == k && |log| == k + 1 && log[0] == start && log[k] == v.Look(w)
      invariant forall i :: 0 <= i < k ==>
        PassedAt(w.ring, w.socket, StuckTimeout(v.latency), passes, log, beats, results, i)
      invariant v.stuckSince == Since(beats)
      invariant k > 0 && v.isWrite && passes[k - 1].hasSocket && passes[k - 1].armOk ==>
        (v.outArmed <==> v.Staged() != [])
    {
      ghost var a := v.Look(w);
      var r := OnePass(v, w, passes[k]);
      ghost var b := v.Look(w);
      PassConserves(w.ring, w.socket, StuckTimeout(v.latency), Since(beats), passes[k], start, a, b, r);
      ghost var beat := BeatOf(w.socket, passes[k], a, b);
      PassLogged(w.ring, w.socket, StuckTimeout(v.latency), passes, log, beats, results, b, beat, r);
      results, log, beats := results + [r], log + [b], beats + [beat];
    }
  }

  lemma PassConserves(ring: nat -> RingReply, socket: nat -> SocketReply, timeout: int, since: int, p: Pass,
                      start: Traffic, a: Traffic, b: Traffic, r: Outcome)
    requires Conserves(ring, start, a) && Passed(ring, socket, timeout, since, p, a, b, r)
    ensures Conserves(ring, start, b)
  {
    hide Conserves, AsksUntilRefused, DrainsTwoBuffers;
    ConservesJoin(ring, start, a, b);
  }

  /** The log grows by one pass. */
  lemma PassLogged(ring: nat -> RingReply, socket: nat -> SocketReply, timeout: int, passes: seq<Pass>,
                   log: seq<Traffic>, beats: seq<Beat>, results: seq<Outcome>, b: Traffic, beat: Beat, r: Outcome)
    requires |beats| == |results| < |passes| && |log| == |beats| + 1
    requires beat == BeatOf(socket, passes[|beats|], log[|beats|], b)
    requires Passed(ring, socket, timeout, Since(beats), passes[|beats|], log[|beats|], b, r)
    requires forall i :: 0 <= i < |beats| ==> PassedAt(ring, socket, timeout, passes, log, beats, results, i)
    ensures forall i :: 0 <= i <= |beats| ==>
      PassedAt(ring, socket, timeout, passes, log + [b], beats + [beat], results + [r], i)
    ensures Since(beats + [beat]) == SinceAfter(Since(beats), beat)
  {
    hide Passed, BeatOf;
    var k := |beats|;
    assert (beats + [beat])[..k] == beats;
    forall i | 0 <= i <= k
      ensures PassedAt(ring, socket, timeout, passes, log + [b], beats + [beat], results + [r], i)
    {
      if i < k {
        assert PassedAt(ring, socket, timeout, passes, log, beats, results, i);
        assert (beats + [beat])[..i] == beats[..i];
      }
    }
  }

  /** The pass ended with bytes staged because the socket answered EASYNCSND. */
  ghost predicate BlockedIn(socket: nat -> SocketReply, passes: seq<Pass>, log: seq<Traffic>, k: nat) {
    && k < |passes| && k + 1 < |log| && Serves(passes[k]) && log[k + 1].staged != []
    && log[k + 1].socketCalls > 0 && socket(log[k + 1].socketCalls - 1).WouldBlock?
  }

  /** The socket took a message in the pass. */
  predicate TookIn(log: seq<Traffic>, k: nat)
    requires k + 1 < |log|
  {
    log[k + 1].messages > log[k].messages
  }

  /** The first `n` passes read the clock, which is positive and never goes back. */
  predicate ClockedPasses(passes: seq<Pass>, n: nat)
    requires n <= |passes|
  {
    && (forall k :: 0 <= k < n ==> passes[k].now > 0)
    && forall j, k :: 0 <= j <= k < n ==> passes[j].now <= passes[k].now
  }

  lemma BeatIs(ring: nat -> RingReply, socket: nat -> SocketReply, timeout: int, passes: seq<Pass>, log: seq<Traffic>,
               beats: seq<Beat>, results: seq<Outcome>, k: nat)
    requires |results| == |beats| == |passes| && |log| == |passes| + 1 && k < |passes|
    requires PassedAt(ring, socket, timeout, passes, log, beats, results, k)
    ensures beats[k].now == passes[k].now && (beats[k].progress <==> TookIn(log, k))
    ensures beats[k].blocked <==> BlockedIn(socket, passes, log, k)
    ensures beats[k].blocked ==> (results[k] == Error <==> Kicks(Since(beats[..k]), beats[k], timeout))
  {
    hide DrainsTwoBuffers, Kicks, Since, AllAccepted;
  }

  /** In a run with a clock that never goes back, a blocked pass gives the viewer up
      exactly when some earlier pass, more than three latencies and more than 500 ms
      before, was blocked too and the socket has taken no message since. */
  lemma GivenUpExactlyWhenStuck(ring: nat -> RingReply, socket: nat -> SocketReply, latency: int,
                                passes: seq<Pass>, log: seq<Traffic>, beats: seq<Beat>, results: seq<Outcome>,
                                i: nat)
    requires |results| == |beats| == |passes| && |log| == |passes| + 1 && i < |passes|
    requires forall k :: 0 <= k <= i ==>
      PassedAt(ring, socket, StuckTimeout(latency), passes, log, beats, results, k)
    requires ClockedPasses(passes, i + 1) && BlockedIn(socket, passes, log, i)
    ensures results[i] == Error <==>
      exists j: nat ::
        && j < i && BlockedIn(socket, passes, log, j) && (forall k :: j < k <= i ==> !TookIn(log, k))
        && passes[i].now - passes[j].now > 3 * latency && passes[i].now - passes[j].now > 500
  {
    hide PassedAt, BlockedIn, TookIn, Kicks, Since, Serves;
    forall k | 0 <= k <= i
      ensures beats[k].now == passes[k].now && (beats[k].progress <==> TookIn(log, k))
      ensures beats[k].blocked <==> BlockedIn(socket, passes, log, k)
    {
      BeatIs(ring, socket, StuckTimeout(latency), passes, log, beats, results, k);
    }
    BeatIs(ring, socket, StuckTimeout(latency), passes, log, beats, results, i);
    assert beats[..i + 1] == beats[..i] + [beats[i]];
    KicksExactlyStuckViewers(beats[..i], beats[i], StuckTimeout(latency));
    assert forall j: nat :: j < i ==>
      (StreakFrom(beats[..i], j) && !beats[i].progress <==>
         BlockedIn(socket, passes, log, j) && forall k :: j < k <= i ==> !TookIn(log, k));
  }

  // ---------------------------------------------------------- stuck viewers

  /** The stuck timer after a history of calls. */
  function Since(beats: seq<Beat>): int {
    if |beats| == 0 then 0 else SinceAfter(Since(beats[..|beats| - 1]), beats[|beats| - 1])
  }

  /** Clock readings are positive and never go back. */
  predicate Clocked(beats: seq<Beat>) {
    && (forall i :: 0 <= i < |beats| ==> beats[i].now > 0)
    && forall i, j :: 0 <= i <= j < |beats| ==> beats[i].now <= beats[j].now
  }

  /** Call `j` was blocked and no message has been taken in any later call. */
  predicate StreakFrom(beats: seq<Beat>, j: nat) {
    j < |beats| && beats[j].blocked && forall i :: j < i < |beats| ==> !beats[i].progress
  }

  lemma StreakStep(beats: seq<Beat>)
    requires |beats| > 0
    ensures var n := |beats| - 1;
      && (StreakFrom(beats, n) <==> beats[n].blocked)
      && (forall j: nat :: j < n ==> (StreakFrom(beats, j) <==> StreakFrom(beats[..n], j) && !beats[n].progress))
      && (forall j: nat :: StreakFrom(beats, j) ==> j <= n) && (forall j: nat :: StreakFrom(beats[..n], j) ==> j < n)
  {
  }

  lemma {:induction false} SinceIsStreakStart(beats: seq<Beat>)
    requires Clocked(beats)
    ensures Since(beats) == 0 <==> !exists j: nat :: StreakFrom(beats, j)
    ensures forall j: nat :: StreakFrom(beats, j) ==> j < |beats|
    ensures Since(beats) != 0 ==>
      exists j: nat :: StreakFrom(beats, j) && Since(beats) == beats[j].now
        && forall i: nat :: StreakFrom(beats, i) ==> j <= i
  {
    if |beats| > 0 {
      hide StreakFrom;
      var n := |beats| - 1;
      var init, b := beats[..n], beats[n];
      SinceIsStreakStart(init);
      StreakStep(beats);
      if Since(init) != 0 {
        var j: nat :| StreakFrom(init, j) && Since(init) == init[j].now
          && forall i: nat :: StreakFrom(init, i) ==> j <= i;
        if !b.progress {
          assert StreakFrom(beats, j) && Since(beats) == beats[j].now;
        }
      }
    }
  }

  /** A viewer is given up in a call exactly when that call is blocked without progress
      and some earlier call, more than the timeout ago, was blocked too with no message
      taken in between. */
  lemma KicksExactlyStuckViewers(beats: seq<Beat>, b: Beat, timeout: int)
    requires Clocked(beats + [b])
    ensures Kicks(Since(beats), b, timeout) <==>
      b.blocked && !b.progress
      && exists j: nat :: StreakFrom(beats, j) && b.now - beats[j].now > timeout
  {
    assert forall i :: 0 <= i < |beats| ==> beats[i] == (beats + [b])[i];
    assert Clocked(beats);
    SinceIsStreakStart(beats);
    if Since(beats) != 0 {
      var j: nat :| StreakFrom(beats, j) && Since(beats) == beats[j].now
        && forall i: nat :: StreakFrom(beats, i) ==> j <= i;
      assert forall i: nat :: StreakFrom(beats, i) ==> beats[j].now <= beats[i].now;
    }
  }
}
