/** The worker's maps of handshakes and sessions, and the commands that change them. */
module NoiseWorkerClass {
  import opened NoiseRecord
  import opened NoiseSession
  import opened Wrappers

  /** A handshake in progress: how many messages were written and read, and the id its transcript gives. */
  datatype Handshake = Handshake(role: Party, written: nat, received: nat, transcript: seq<byte>)

  /** The three messages of the pattern. */
  datatype HandshakeMessage = MessageA | MessageB | MessageC

  function NextWrite(value: Handshake): Option<HandshakeMessage> {
    if value.role == Initiator && value.written == 0 then Some(MessageA)
    else if value.role == Responder && value.written == 0 then Some(MessageB)
    else if value.role == Initiator && value.written == 1 then Some(MessageC)
    else None
  }

  function NextRead(value: Handshake): Option<HandshakeMessage> {
    if value.role == Responder && value.received == 0 then Some(MessageA)
    else if value.role == Initiator && value.received == 0 then Some(MessageB)
    else if value.role == Responder && value.received == 1 then Some(MessageC)
    else None
  }

  /** The messages a handshake writes from here on, when every write succeeds; likewise those it reads. */
  function Writes(value: Handshake): seq<HandshakeMessage>
    decreases if value.written < 2 then 2 - value.written else 0
  {
    if NextWrite(value).None? then [] else [NextWrite(value).value] + Writes(value.(written := value.written + 1))
  }

  function Reads(value: Handshake): seq<HandshakeMessage>
    decreases if value.received < 2 then 2 - value.received else 0
  {
    if NextRead(value).None? then [] else [NextRead(value).value] + Reads(value.(received := value.received + 1))
  }

  /** As long as each end has read what the other wrote, the next write of one is the next read of the
      other; from the start each role writes exactly what its peer reads, A and C one way and B the
      other, each once. */
  lemma RolesAreComplementary(initiator: Handshake, responder: Handshake)
    requires initiator.role == Initiator && responder.role == Responder
    ensures initiator.written == responder.received ==>
              NextWrite(initiator) == NextRead(responder) && Writes(initiator) == Reads(responder)
    ensures responder.written == initiator.received ==>
              NextWrite(responder) == NextRead(initiator) && Writes(responder) == Reads(initiator)
    ensures initiator.written == 0 ==> Writes(initiator) == [MessageA, MessageC]
    ensures responder.written == 0 ==> Writes(responder) == [MessageB]
  {
    var written := initiator.(written := 1);
    assert initiator.written == 0 ==> Writes(initiator) == [MessageA] + Writes(written);
    assert Writes(written) == [MessageC] + Writes(initiator.(written := 2)) == [MessageC];
    if initiator.written == responder.received && initiator.written < 2 {
      assert Reads(responder.(received := 1)) == [MessageC] + Reads(responder.(received := 2)) == [MessageC];
    }
  }

  class NoiseWorker {
    var handshakes: map<nat, Handshake>
    var sessions: map<nat, Session>
    var nextHandle: nat

    /** Every handle in use was issued, and no handle names two things. */
    ghost predicate Valid()
      reads this
    {
      && (forall h :: h in handshakes || h in sessions ==> h < nextHandle)
      && handshakes.Keys !! sessions.Keys
    }

    constructor ()
      ensures Valid() && handshakes == map[] && sessions == map[]
    {
      handshakes, sessions, nextHandle := map[], map[], 1;
    }

    method CreateHandshake(role: Party, transcript: seq<byte>) returns (handle: nat)
      requires Valid()
      modifies this
      ensures Valid() && handle == old(nextHandle) && nextHandle == old(nextHandle) + 1
      ensures handshakes == old(handshakes)[handle := Handshake(role, 0, 0, transcript)] && sessions == old(sessions)
    {
      handle := nextHandle;
      nextHandle := nextHandle + 1;
      handshakes := handshakes[handle := Handshake(role, 0, 0, transcript)];
    }

    /** `ok` says whether the library writes the message; when it throws, the counter stays. */
    method WriteHandshake(handle: nat, ok: bool) returns (message: Option<HandshakeMessage>)
      requires Valid()
      modifies this
      ensures Valid() && sessions == old(sessions) && nextHandle == old(nextHandle)
      ensures message == if ok && handle in old(handshakes) then NextWrite(old(handshakes)[handle]) else None
      ensures handshakes == if message.Some?
                            then old(handshakes)[handle := old(handshakes)[handle].(written := old(handshakes)[handle].written + 1)]
                            else old(handshakes)
    {
      if handle !in handshakes { return None; }
      var value := handshakes[handle];
      message := NextWrite(value);
      if !ok { return None; }
      if message.Some? { handshakes := handshakes[handle := value.(written := value.written + 1)]; }
    }

    /** `ok` says whether the library accepts the message; when it throws, the counter stays and the
        same message may be read again. */
    method ReadHandshake(handle: nat, ok: bool) returns (message: Option<HandshakeMessage>)
      requires Valid()
      modifies this
      ensures Valid() && sessions == old(sessions) && nextHandle == old(nextHandle)
      ensures message == if ok && handle in old(handshakes) then NextRead(old(handshakes)[handle]) else None
      ensures handshakes == if message.Some?
                            then old(handshakes)[handle := old(handshakes)[handle].(received := old(handshakes)[handle].received + 1)]
                            else old(handshakes)
    {
      if handle !in handshakes { return None; }
      var value := handshakes[handle];
      message := NextRead(value);
      if !ok { return None; }
      if message.Some? { handshakes := handshakes[handle := value.(received := value.received + 1)]; }
    }

    /** The handshake is gone afterwards, whether or not a session came of it. */
    method FinishHandshake(handle: nat, maxRecordSize: int, now: int) returns (session: Option<nat>)
      requires Valid()
      modifies this
      ensures Valid() && handshakes == old(handshakes) - {handle}
      ensures session.Some? <==> 512 <= maxRecordSize <= 65583 && handle in old(handshakes)
      ensures if session.Some?
              then session.value == old(nextHandle) && nextHandle == old(nextHandle) + 1 &&
                   sessions == old(sessions)[session.value := NewSession(old(handshakes)[handle].transcript, maxRecordSize, now)]
              else sessions == old(sessions) && nextHandle == old(nextHandle)
    {
      if maxRecordSize < 512 || maxRecordSize > 65583 {
        handshakes := handshakes - {handle};
        return None;
      }
      if handle !in handshakes {
        assert handshakes - {handle} == handshakes;
        return None;
      }
      var value := handshakes[handle];
      var issued := nextHandle;
      nextHandle := nextHandle + 1;
      sessions := sessions[issued := NewSession(value.transcript, maxRecordSize, now)];
      handshakes := handshakes - {handle};
      session := Some(issued);
    }

    method DestroySession(handle: nat)
      requires Valid()
      modifies this
      ensures Valid() && sessions == old(sessions) - {handle}
      ensures handshakes == old(handshakes) && nextHandle == old(nextHandle)
    {
      sessions := sessions - {handle};
    }

    /** `seal`. A known session seals or is destroyed, and the caller's plaintext is zeroed either way;
        an unknown handle touches nothing. */
    method SealRecord(handle: nat, kind: byte, payload: array<byte>, ciphertext: seq<byte>, now: int)
      returns (record: Option<array<byte>>)
      requires Valid() && forall h :: h in sessions ==> |sessions[h].sessionId| == SESSION_ID_LENGTH
      modifies this, payload
      ensures Valid() && handshakes == old(handshakes) && nextHandle == old(nextHandle)
      ensures var message := Message(kind, old(payload[..]));
              if handle !in old(sessions) then record.None? && sessions == old(sessions) && payload[..] == old(payload[..])
              else
                && (forall i :: 0 <= i < payload.Length ==> payload[i] == 0)
                && if CanSeal(old(sessions)[handle], message, now)
                   then sessions == old(sessions)[handle := Sealed(old(sessions)[handle], message)] &&
                        record.Some? && record.value[..] == SealHeader(old(sessions)[handle], message) + ciphertext
                   else record.None? && sessions == old(sessions) - {handle}
    {
      if handle !in sessions { return None; }
      var value := sessions[handle];
      var message := Message(kind, payload[..]);
      if CanSeal(value, message, now) {
        var header := EncodeHeader(kind, value.sessionId, value.sendSequence, payload.Length);
        sessions := sessions[handle := Sealed(value, message)];
        var output := ConcatBytes([header[..], ciphertext]);
        ConcatPair(header[..], ciphertext);
        record := Some(output);
      } else {
        DestroySession(handle);
        record := None;
      }
      Zero(payload);
    }

    /** `open`. Anything but a valid next record destroys the session. */
    method OpenRecord(handle: nat, record: seq<byte>, log: seq<Encryption>, now: int) returns (message: Option<Message>)
      requires Valid()
      modifies this
      ensures Valid() && handshakes == old(handshakes) && nextHandle == old(nextHandle)
      ensures if handle !in old(sessions) then message.None? && sessions == old(sessions)
              else
                && message == Open(old(sessions)[handle], log, record, now)
                && sessions == if message.Some? then old(sessions)[handle := Opened(old(sessions)[handle], message.value)]
                               else old(sessions) - {handle}
    {
      if handle !in sessions { return None; }
      var value := sessions[handle];
      message := Check(value, record, log, now);
      if message.Some? {
        sessions := sessions[handle := Opened(value, message.value)];
      } else {
        DestroySession(handle);
      }
    }
  }

  method Zero(a: array<byte>)
    modifies a
    ensures forall i :: 0 <= i < a.Length ==> a[i] == 0
  {
    for i := 0 to a.Length
      invariant forall k :: 0 <= k < i ==> a[k] == 0
    {
      a[i] := 0;
    }
  }

  /** The checks of `open`, in order, with the byte-wise comparison of the session id. */
  method Check(session: Session, record: seq<byte>, log: seq<Encryption>, now: int) returns (message: Option<Message>)
    ensures message == Open(session, log, record, now)
  {
    if |record| < 64 || |record| > session.maxRecordSize { return None; }
    var header := record[..HEADER_LENGTH];
    var sameSession := Equal(header[4..36], session.sessionId);
    if header[0] != 1 || !ValidNoiseRecordType(header[1]) || FromBigEndian(header[2..4]) != 0 || !sameSession ||
       FromBigEndian(header[36..44]) != session.receiveSequence
    {
      return None;
    }
    var payloadLength := PayloadLength(header);
    if payloadLength + 64 != |record| { return None; }
    if Expired(session.startedAt, now, session.receivedRecords, session.receivedBytes, payloadLength) { return None; }
    var payload := Decrypt(log, session.receiveNonce, header, record[HEADER_LENGTH..]);
    message := if payload.Some? then Some(Message(header[1], payload.value)) else None;
  }
}
