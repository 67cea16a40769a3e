/** Two endpoints of one Noise session over a network that may drop, repeat, reorder, alter or
    invent records. The ciphers are ideal: a decryption succeeds only on what the peer encrypted
    under the same counter and header. */
module NoiseSession {
  import opened NoiseRecord
  import opened Wrappers

  const MAX_SESSION_AGE_MS := 24 * 60 * 60 * 1000
  const MAX_RECORDS := 1048576
  const MAX_SESSION_BYTES := 64 * 1024 * 1024 * 1024
  const MAX_PAYLOAD := 65519

  datatype Session = Session(
    sessionId: seq<byte>,
    maxRecordSize: nat,
    sendNonce: nat,
    receiveNonce: nat,
    sendSequence: nat,
    receiveSequence: nat,
    sentRecords: nat,
    receivedRecords: nat,
    sentBytes: nat,
    receivedBytes: nat,
    startedAt: int)

  datatype Message = Message(kind: byte, payload: seq<byte>)

  /** One encryption under one direction's key; its position in the log is its counter. */
  datatype Encryption = Encryption(header: seq<byte>, payload: seq<byte>, ciphertext: seq<byte>)

  predicate ValidRecordLimit(maxRecordSize: int) {
    512 <= maxRecordSize <= 65583
  }

  function NewSession(sessionId: seq<byte>, maxRecordSize: nat, now: int): Session {
    Session(sessionId, maxRecordSize, 0, 0, 0, 0, 0, 0, 0, 0, now)
  }

  /** `ensureSessionActive` throws and destroys the session in exactly this case. */
  predicate Expired(startedAt: int, now: int, records: nat, bytes: nat, nextPayloadLength: nat) {
    || now - startedAt >= MAX_SESSION_AGE_MS
    || records >= MAX_RECORDS
    || bytes >= MAX_SESSION_BYTES
    || (nextPayloadLength > 0 && nextPayloadLength >= MAX_SESSION_BYTES - bytes)
  }

  predicate ShouldRotateSession(session: Session, now: int, nextPayloadLength: nat) {
    || now - session.startedAt >= MAX_SESSION_AGE_MS - 5000
    || session.sentRecords >= MAX_RECORDS - 1
    || session.receivedRecords >= MAX_RECORDS - 1
    || session.sentBytes + nextPayloadLength >= MAX_SESSION_BYTES
    || session.receivedBytes >= MAX_SESSION_BYTES
  }

  predicate CanSeal(session: Session, message: Message, now: int) {
    && !Expired(session.startedAt, now, session.sentRecords, session.sentBytes, |message.payload|)
    && ValidNoiseRecordType(message.kind)
    && |message.payload| + 64 <= session.maxRecordSize && |message.payload| <= MAX_PAYLOAD
  }

  function SealHeader(session: Session, message: Message): seq<byte> {
    Header(message.kind, session.sessionId, session.sendSequence, |message.payload|)
  }

  function Sealed(session: Session, message: Message): Session {
    session.(sendNonce := session.sendNonce + 1, sendSequence := session.sendSequence + 1,
             sentRecords := session.sentRecords + 1, sentBytes := session.sentBytes + |message.payload|)
  }

  /** Decryption at counter `nonce` of a direction whose encryptions are `log`. */
  function Decrypt(log: seq<Encryption>, nonce: nat, header: seq<byte>, ciphertext: seq<byte>): Option<seq<byte>> {
    if nonce < |log| && log[nonce].header == header && log[nonce].ciphertext == ciphertext
    then Some(log[nonce].payload) else None
  }

  /** The outcome of `open`; None is the throw that destroys the session. */
  function Open(session: Session, log: seq<Encryption>, record: seq<byte>, now: int): Option<Message> {
    if |record| < 64 || |record| > session.maxRecordSize then None
    else
      var header := record[..HEADER_LENGTH];
      if !Accepts(header, session.sessionId, session.receiveSequence) then None
      else if PayloadLength(header) + 64 != |record| then None
      else if Expired(session.startedAt, now, session.receivedRecords, session.receivedBytes, PayloadLength(header)) then None
      else
        match Decrypt(log, session.receiveNonce, header, record[HEADER_LENGTH..])
        case None => None
        case Some(payload) => Some(Message(header[1], payload))
  }

  function Opened(session: Session, message: Message): Session {
    session.(receiveNonce := session.receiveNonce + 1, receiveSequence := session.receiveSequence + 1,
             receivedRecords := session.receivedRecords + 1, receivedBytes := session.receivedBytes + |message.payload|)
  }

  // ----- one session, both ends

  datatype Party = Initiator | Responder

  /** One direction: the encryptions made, the messages passed to successful `seal` calls, and the
      messages `open` returned at the other end. */
  datatype Wire = Wire(log: seq<Encryption>, sealed: seq<Message>, delivered: seq<Message>)

  datatype System = System(initiator: Option<Session>, responder: Option<Session>, fromInitiator: Wire, fromResponder: Wire)
  {
    function At(p: Party): Option<Session> {
      if p == Initiator then initiator else responder
    }

    function From(p: Party): Wire {
      if p == Initiator then fromInitiator else fromResponder
    }

    function To(p: Party): Wire {
      if p == Initiator then fromResponder else fromInitiator
    }

    function With(p: Party, session: Option<Session>): System {
      if p == Initiator then this.(initiator := session) else this.(responder := session)
    }

    function WithFrom(p: Party, wire: Wire): System {
      if p == Initiator then this.(fromInitiator := wire) else this.(fromResponder := wire)
    }

    function WithTo(p: Party, wire: Wire): System {
      if p == Initiator then this.(fromResponder := wire) else this.(fromInitiator := wire)
    }
  }

  /** `ciphertext` is what the cipher returns, always a tag longer than the payload; `record` is whatever the network hands over. */
  datatype Event =
    | Seal(p: Party, message: Message, ciphertext: seq<byte>, now: int)
    | Receive(p: Party, record: seq<byte>, now: int)
    | Destroy(p: Party)

  function Step(s: System, e: Event): System {
    match e
    case Seal(p, message, ciphertext, now) =>
      if s.At(p).None? then s
      else
        var session := s.At(p).value;
        if !CanSeal(session, message, now) then s.With(p, None)
        else if |ciphertext| != |message.payload| + TAG_LENGTH then s
        else
          var wire := s.From(p);
          var entry := Encryption(SealHeader(session, message), message.payload, ciphertext);
          s.With(p, Some(Sealed(session, message)))
           .WithFrom(p, wire.(log := wire.log + [entry], sealed := wire.sealed + [message]))
    case Receive(p, record, now) =>
      if s.At(p).None? then s
      else
        var session, wire := s.At(p).value, s.To(p);
        (match Open(session, wire.log, record, now)
         case None => s.With(p, None)
         case Some(message) =>
           s.With(p, Some(Opened(session, message))).WithTo(p, wire.(delivered := wire.delivered + [message])))
    case Destroy(p) => s.With(p, None)
  }

  function Run(s: System, events: seq<Event>): System
    decreases |events|
  {
    if events == [] then s else Run(Step(s, events[0]), events[1..])
  }

  /** What `finishHandshake` leaves at the two ends of one handshake: one session id, and the two
      halves of the split crossed over. Limits and start times are each end's own. */
  ghost predicate IsStart(s: System) {
    exists sessionId: seq<byte>, limitI: nat, limitR: nat, startI, startR ::
      && |sessionId| == SESSION_ID_LENGTH && ValidRecordLimit(limitI) && ValidRecordLimit(limitR)
      && s == System(Some(NewSession(sessionId, limitI, startI)), Some(NewSession(sessionId, limitR, startR)),
                     Wire([], [], []), Wire([], [], []))
  }

  // ----- the invariant

  function TotalBytes(messages: seq<Message>): nat {
    if messages == [] then 0 else TotalBytes(messages[..|messages| - 1]) + |messages[|messages| - 1].payload|
  }

  /** The log records exactly the sealed messages, each under its own sequence number. */
  ghost predicate WireInv(wire: Wire, sessionId: seq<byte>) {
    && |wire.log| == |wire.sealed| <= MAX_RECORDS
    && wire.delivered <= wire.sealed && TotalBytes(wire.sealed) < MAX_SESSION_BYTES
    && forall i :: 0 <= i < |wire.log| ==> EntryInv(wire, sessionId, i)
  }

  ghost predicate EntryInv(wire: Wire, sessionId: seq<byte>, i: nat)
    requires i < |wire.log| == |wire.sealed|
  {
    && wire.log[i].payload == wire.sealed[i].payload
    && |wire.log[i].payload| <= MAX_PAYLOAD && |wire.log[i].ciphertext| == |wire.log[i].payload| + TAG_LENGTH
    && ValidNoiseRecordType(wire.sealed[i].kind)
    && wire.log[i].header == Header(wire.sealed[i].kind, sessionId, i, |wire.log[i].payload|)
  }

  /** A live session's counters are the lengths and sizes of what it sealed and opened. */
  ghost predicate SessionInv(session: Session, sessionId: seq<byte>, outgoing: Wire, incoming: Wire) {
    && session.sessionId == sessionId
    && session.sendNonce == session.sendSequence == session.sentRecords == |outgoing.sealed| <= MAX_RECORDS
    && session.receiveNonce == session.receiveSequence == session.receivedRecords == |incoming.delivered| <= MAX_RECORDS
    && session.sentBytes == TotalBytes(outgoing.sealed) < MAX_SESSION_BYTES
    && session.receivedBytes == TotalBytes(incoming.delivered) < MAX_SESSION_BYTES
    && ValidRecordLimit(session.maxRecordSize)
  }

  ghost predicate InvFor(s: System, sessionId: seq<byte>) {
    && |sessionId| == SESSION_ID_LENGTH
    && WireInv(s.fromInitiator, sessionId) && WireInv(s.fromResponder, sessionId)
    && (s.initiator.Some? ==> SessionInv(s.initiator.value, sessionId, s.fromInitiator, s.fromResponder))
    && (s.responder.Some? ==> SessionInv(s.responder.value, sessionId, s.fromResponder, s.fromInitiator))
  }

  ghost predicate Inv(s: System) {
    exists sessionId :: InvFor(s, sessionId)
  }

  lemma TotalSnoc(messages: seq<Message>, message: Message)
    ensures TotalBytes(messages + [message]) == TotalBytes(messages) + |message.payload|
  {
    assert (messages + [message])[..|messages|] == messages;
  }

  lemma SealKeepsWire(session: Session, message: Message, ciphertext: seq<byte>, now: int, sessionId: seq<byte>,
                      outgoing: Wire, incoming: Wire)
    requires SessionInv(session, sessionId, outgoing, incoming) && WireInv(outgoing, sessionId) && CanSeal(session, message, now)
    requires |ciphertext| == |message.payload| + TAG_LENGTH
    ensures var entry := Encryption(SealHeader(session, message), message.payload, ciphertext);
            var outgoing' := outgoing.(log := outgoing.log + [entry], sealed := outgoing.sealed + [message]);
            WireInv(outgoing', sessionId) && SessionInv(Sealed(session, message), sessionId, outgoing', incoming)
  {
    var entry := Encryption(SealHeader(session, message), message.payload, ciphertext);
    var outgoing' := outgoing.(log := outgoing.log + [entry], sealed := outgoing.sealed + [message]);
    TotalSnoc(outgoing.sealed, message);
    forall i | 0 <= i < |outgoing'.log| ensures EntryInv(outgoing', sessionId, i) {
      if i < |outgoing.log| { assert EntryInv(outgoing, sessionId, i); }
    }
  }

  /** What `open` returns is the next message the peer sealed. */
  lemma OpenedIsNextSealed(session: Session, sessionId: seq<byte>, outgoing: Wire, incoming: Wire, record: seq<byte>, now: int)
    requires SessionInv(session, sessionId, outgoing, incoming) && WireInv(incoming, sessionId)
    requires |sessionId| == SESSION_ID_LENGTH && Open(session, incoming.log, record, now).Some?
    ensures |incoming.delivered| < |incoming.sealed|
    ensures Open(session, incoming.log, record, now).value == incoming.sealed[|incoming.delivered|]
    ensures record == incoming.log[|incoming.delivered|].header + incoming.log[|incoming.delivered|].ciphertext
  {
    var n := |incoming.delivered|;
    assert EntryInv(incoming, sessionId, n);
    WordSizes();
    HeaderFields(incoming.sealed[n].kind, sessionId, n, |incoming.log[n].payload|);
    assert record == record[..HEADER_LENGTH] + record[HEADER_LENGTH..];
  }

  lemma OpenKeepsWire(session: Session, sessionId: seq<byte>, outgoing: Wire, incoming: Wire, record: seq<byte>, now: int)
    requires SessionInv(session, sessionId, outgoing, incoming) && WireInv(incoming, sessionId)
    requires |sessionId| == SESSION_ID_LENGTH && Open(session, incoming.log, record, now).Some?
    ensures var message := Open(session, incoming.log, record, now).value;
            var incoming' := incoming.(delivered := incoming.delivered + [message]);
            WireInv(incoming', sessionId) && SessionInv(Opened(session, message), sessionId, outgoing, incoming')
  {
    var message := Open(session, incoming.log, record, now).value;
    var incoming' := incoming.(delivered := incoming.delivered + [message]);
    var n := |incoming.delivered|;
    OpenedIsNextSealed(session, sessionId, outgoing, incoming, record, now);
    assert EntryInv(incoming, sessionId, n);
    WordSizes();
    HeaderFields(incoming.sealed[n].kind, sessionId, n, |incoming.log[n].payload|);
    TotalSnoc(incoming.delivered, message);
    forall i | 0 <= i < |incoming'.log| ensures EntryInv(incoming', sessionId, i) {
      assert EntryInv(incoming, sessionId, i);
    }
  }

  lemma StepKeepsInv(s: System, e: Event, sessionId: seq<byte>)
    requires InvFor(s, sessionId)
    ensures InvFor(Step(s, e), sessionId)
  {
    match e
    case Seal(p, message, ciphertext, now) =>
      if s.At(p).Some? && CanSeal(s.At(p).value, message, now) && |ciphertext| == |message.payload| + TAG_LENGTH {
        SealKeepsWire(s.At(p).value, message, ciphertext, now, sessionId, s.From(p), s.To(p));
      }
    case Receive(p, record, now) =>
      if s.At(p).Some? && Open(s.At(p).value, s.To(p).log, record, now).Some? {
        OpenKeepsWire(s.At(p).value, sessionId, s.From(p), s.To(p), record, now);
      }
    case Destroy(p) =>
  }

  lemma {:induction false} RunKeepsInv(s: System, events: seq<Event>, sessionId: seq<byte>)
    requires InvFor(s, sessionId)
    ensures InvFor(Run(s, events), sessionId)
    decreases |events|
  {
    if events != [] {
      StepKeepsInv(s, events[0], sessionId);
      RunKeepsInv(Step(s, events[0]), events[1..], sessionId);
    }
  }

  ghost predicate Reachable(s: System) {
    exists start, events :: IsStart(start) && s == Run(start, events)
  }

  lemma ReachableInv(s: System) returns (sessionId: seq<byte>)
    requires Reachable(s)
    ensures InvFor(s, sessionId)
  {
    var start, events :| IsStart(start) && s == Run(start, events);
    sessionId := start.initiator.value.sessionId;
    RunKeepsInv(start, events, sessionId);
  }

  // ----- theorems over whole runs

  /** Whatever the network does, what one end opens is a prefix of what the other end sealed. */
  lemma DeliveredIsPrefixOfSealed(s: System, p: Party)
    requires Reachable(s)
    ensures s.To(p).delivered <= s.To(p).sealed
  {
    var sessionId := ReachableInv(s);
  }

  /** An end whose session is gone: nothing is delivered to that end, and nothing sealed by it, ever again. */
  lemma {:induction false} DestroyedIsFinal(s: System, p: Party, events: seq<Event>)
    requires s.At(p).None?
    ensures Run(s, events).At(p).None?
    ensures Run(s, events).To(p).delivered == s.To(p).delivered
    ensures Run(s, events).From(p).sealed == s.From(p).sealed
    decreases |events|
  {
    if events != [] {
      DestroyedIsFinal(Step(s, events[0]), p, events[1..]);
    }
  }

  /** So one record that `open` refuses ends the session for good, whatever arrives afterwards. */
  lemma FailedOpenIsFinal(s: System, p: Party, record: seq<byte>, now: int, events: seq<Event>)
    requires s.At(p).Some? && Open(s.At(p).value, s.To(p).log, record, now).None?
    ensures var ended := Run(Step(s, Receive(p, record, now)), events);
            && ended.At(p).None?
            && ended.To(p).delivered == s.To(p).delivered && ended.From(p).sealed == s.From(p).sealed
  {
    DestroyedIsFinal(Step(s, Receive(p, record, now)), p, events);
  }

  /** Every record other than the very next one of this session makes `open` fail. */
  lemma OnlyNextRecordOpens(s: System, p: Party, record: seq<byte>, now: int)
    requires Reachable(s) && s.At(p).Some?
    requires var wire := s.To(p);
             var n := |wire.delivered|;
             n >= |wire.log| || record != wire.log[n].header + wire.log[n].ciphertext
    ensures Open(s.At(p).value, s.To(p).log, record, now).None?
  {
    var sessionId := ReachableInv(s);
    if Open(s.At(p).value, s.To(p).log, record, now).Some? {
      OpenedIsNextSealed(s.At(p).value, sessionId, s.From(p), s.To(p), record, now);
    }
  }

  /** The budgets hold in every reachable session, in both directions. */
  lemma BudgetsHold(s: System, p: Party)
    requires Reachable(s) && s.At(p).Some?
    ensures var session := s.At(p).value;
            && session.sentRecords == session.sendSequence == |s.From(p).sealed| <= MAX_RECORDS
            && session.receivedRecords == session.receiveSequence == |s.To(p).delivered| <= MAX_RECORDS
            && session.sentBytes == TotalBytes(s.From(p).sealed) < MAX_SESSION_BYTES
            && session.receivedBytes == TotalBytes(s.To(p).delivered) < MAX_SESSION_BYTES
  {
    var sessionId := ReachableInv(s);
  }

  /** No header, hence no sequence number, is used twice under one key. */
  lemma CountersAreFresh(s: System, p: Party, i: nat, j: nat)
    requires Reachable(s) && i < j < |s.From(p).log|
    ensures s.From(p).log[i].header != s.From(p).log[j].header
  {
    var sessionId := ReachableInv(s);
    assert EntryInv(s.From(p), sessionId, i) && EntryInv(s.From(p), sessionId, j);
    WordSizes();
    HeaderFields(s.From(p).sealed[i].kind, sessionId, i, |s.From(p).log[i].payload|);
    HeaderFields(s.From(p).sealed[j].kind, sessionId, j, |s.From(p).log[j].payload|);
  }

  /** A session of 24 hours is over for good: whatever its owner seals or the network hands it, nothing
      more is sealed or delivered and the session is gone. */
  lemma AgedSessionEnds(s: System, p: Party, now: int)
    requires s.At(p).Some? && now - s.At(p).value.startedAt >= MAX_SESSION_AGE_MS
    ensures forall message, ciphertext :: var s' := Step(s, Seal(p, message, ciphertext, now));
              s'.At(p).None? && s'.From(p) == s.From(p)
    ensures forall record :: var s' := Step(s, Receive(p, record, now));
              s'.At(p).None? && s'.To(p) == s.To(p)
  {}

  /** Exactly when `seal` succeeds: the session is younger than 24 hours, neither its 2^20 records nor
      its 2^36 bytes are used up by what it has sealed and now seals, and type and size are valid.
      Otherwise nothing is sealed and the session is gone. */
  lemma SealSucceedsExactly(s: System, p: Party, message: Message, ciphertext: seq<byte>, now: int)
    requires Reachable(s) && s.At(p).Some? && |ciphertext| == |message.payload| + TAG_LENGTH
    ensures var session, sealed, s' := s.At(p).value, s.From(p).sealed, Step(s, Seal(p, message, ciphertext, now));
            && s'.From(p).sealed == (if s'.At(p).Some? then sealed + [message] else sealed)
            && (s'.At(p).Some? <==>
                  && now - session.startedAt < MAX_SESSION_AGE_MS
                  && |sealed| < MAX_RECORDS && TotalBytes(sealed) + |message.payload| < MAX_SESSION_BYTES
                  && ValidNoiseRecordType(message.kind) && |message.payload| + 64 <= session.maxRecordSize)
  {
    var sessionId := ReachableInv(s);
  }

  lemma {:induction false} TotalOfPrefix(messages: seq<Message>, n: nat)
    requires n <= |messages|
    ensures TotalBytes(messages[..n]) <= TotalBytes(messages)
    decreases |messages|
  {
    if n < |messages| {
      var front := messages[..|messages| - 1];
      TotalOfPrefix(front, n);
      assert messages[..n] == front[..n];
    } else {
      assert messages[..n] == messages;
    }
  }

  /** The next record passes every check of `open` but the receiver's own limit and age. */
  lemma NextRecordOpens(session: Session, sessionId: seq<byte>, outgoing: Wire, incoming: Wire, now: int)
    requires SessionInv(session, sessionId, outgoing, incoming) && WireInv(incoming, sessionId)
    requires |sessionId| == SESSION_ID_LENGTH && |incoming.delivered| < |incoming.log|
    ensures var n := |incoming.delivered|; var record := incoming.log[n].header + incoming.log[n].ciphertext;
            Open(session, incoming.log, record, now).Some? <==>
              |record| <= session.maxRecordSize && now - session.startedAt < MAX_SESSION_AGE_MS
  {
    var n := |incoming.delivered|;
    var entry := incoming.log[n];
    var record := entry.header + entry.ciphertext;
    assert EntryInv(incoming, sessionId, n);
    WordSizes();
    HeaderFields(incoming.sealed[n].kind, sessionId, n, |entry.payload|);
    assert record[..HEADER_LENGTH] == entry.header && record[HEADER_LENGTH..] == entry.ciphertext;
    TotalOfPrefix(incoming.sealed, n + 1);
    assert incoming.sealed[..n + 1] == incoming.delivered + [incoming.sealed[n]];
    TotalSnoc(incoming.delivered, incoming.sealed[n]);
  }

  /** Exactly when `open` delivers: the bytes are the next record the peer sealed, they fit this end's
      limit, and the session is younger than 24 hours; then it delivers what was sealed. Otherwise
      nothing is delivered and the session is gone. */
  lemma OpenSucceedsExactly(s: System, p: Party, record: seq<byte>, now: int)
    requires Reachable(s) && s.At(p).Some?
    ensures var session, wire, s' := s.At(p).value, s.To(p), Step(s, Receive(p, record, now)); var n := |wire.delivered|;
            && n <= |wire.log| == |wire.sealed|
            && (s'.At(p).Some? <==>
                  && n < |wire.log| && record == wire.log[n].header + wire.log[n].ciphertext
                  && |record| <= session.maxRecordSize && now - session.startedAt < MAX_SESSION_AGE_MS)
            && s'.To(p).delivered == (if s'.At(p).Some? then wire.sealed[..n + 1] else wire.delivered)
  {
    var sessionId := ReachableInv(s);
    var wire := s.To(p);
    var n := |wire.delivered|;
    if Open(s.At(p).value, wire.log, record, now).Some? {
      OpenedIsNextSealed(s.At(p).value, sessionId, s.From(p), wire, record, now);
      assert wire.sealed[..n + 1] == wire.delivered + [wire.sealed[n]];
    }
    if n < |wire.log| { NextRecordOpens(s.At(p).value, sessionId, s.From(p), wire, now); }
  }

  /** Rotation is advised for n bytes exactly when, by five seconds later, sealing those n bytes, sealing a
      second record, or opening a second one would meet an expiry. */
  lemma RotationIsAdvisedExactly(session: Session, asked: int, n: nat)
    ensures ShouldRotateSession(session, asked, n) <==>
              || Expired(session.startedAt, asked + 5000, session.sentRecords, session.sentBytes, n)
              || Expired(session.startedAt, asked + 5000, session.sentRecords + 1, session.sentBytes, 0)
              || Expired(session.startedAt, asked + 5000, session.receivedRecords + 1, session.receivedBytes, 0)
  {}

  /** When rotation is not advised for n bytes, sealing up to n bytes within five seconds cannot hit
      an expiry; it succeeds whenever its type and size are valid. */
  lemma NoRotationMeansNoExpiry(s: System, p: Party, asked: int, n: nat, message: Message, now: int)
    requires Reachable(s) && s.At(p).Some? && !ShouldRotateSession(s.At(p).value, asked, n)
    requires |message.payload| <= n && now <= asked + 5000
    ensures var session := s.At(p).value;
            && !Expired(session.startedAt, now, session.sentRecords, session.sentBytes, |message.payload|)
            && (CanSeal(session, message, now) <==>
                  ValidNoiseRecordType(message.kind) && |message.payload| + 64 <= session.maxRecordSize)
  {
    var sessionId := ReachableInv(s);
  }

  /** In lock-step, a record of a live peer is accepted and returns the same type and payload, as long
      as it fits the receiver's limit and the receiver has not aged out. */
  lemma OpenUndoesSeal(s: System, p: Party, q: Party, message: Message, ciphertext: seq<byte>, now: int, later: int)
    requires Reachable(s) && p != q && s.At(p).Some? && s.At(q).Some?
    requires CanSeal(s.At(p).value, message, now) && |ciphertext| == |message.payload| + TAG_LENGTH
    requires s.To(q).delivered == s.To(q).sealed
    requires |message.payload| + 64 <= s.At(q).value.maxRecordSize
    requires later - s.At(q).value.startedAt < MAX_SESSION_AGE_MS
    ensures var record := SealHeader(s.At(p).value, message) + ciphertext;
            var s1 := Step(s, Seal(p, message, ciphertext, now));
            var s2 := Step(s1, Receive(q, record, later));
            && |record| == |message.payload| + 64
            && Open(s1.At(q).value, s1.To(q).log, record, later) == Some(message)
            && s2.At(q).Some? && s2.To(q).delivered == s2.To(q).sealed == s.To(q).sealed + [message]
  {
    var sessionId := ReachableInv(s);
    var session, receiver := s.At(p).value, s.At(q).value;
    var header := SealHeader(session, message);
    WordSizes();
    HeaderFields(message.kind, sessionId, session.sendSequence, |message.payload|);
    var record := header + ciphertext;
    assert record[..HEADER_LENGTH] == header && record[HEADER_LENGTH..] == ciphertext;
  }
}
