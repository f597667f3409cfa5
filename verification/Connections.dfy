/** The Host's connection table (`conn.rs`): phases, the one current connection
    of a device, the challenge nonce, the replay window and the admission stop.
    Each method is one lock section, so each is one atomic step. */
module Connections {
  import opened Prelude

  const SEEN_MESSAGE_CAP: nat := 128

  type ConnId = nat
  type Device = string
  type MessageId = nat
  type Instant = nat

  datatype Incarnation = Incarnation(counter: u64, random: u64)

  datatype Phase = Accepted | Paired | Challenged | Authenticated | Superseded | Closed {
    predicate PreAuth() {
      Accepted? || Paired? || Challenged?
    }

    /** The order in which phases are entered; the last two are never left. */
    function Rank(): nat {
      match this
      case Accepted => 0
      case Paired => 1
      case Challenged => 2
      case Authenticated => 3
      case Superseded => 4
      case Closed => 4
    }
  }

  datatype ChallengeOutcome = Challenged | Superseded | WrongPhase | Unknown
  datatype NonceAdmission = Nonce(nonce: string) | Missing | Superseded | WrongPhase | Unknown
  datatype InstallOutcome = Installed(superseded: Option<ConnId>) | Superseded | WrongPhase | Unknown

  /** The identity a live connection acts under. */
  datatype ClientRef = ByDevice(device: Device) | ByIncarnation(incarnation: Incarnation)

  datatype LiveInput = LiveInput(
    client: ClientRef, sameMachine: bool, device: Option<Device>, authed: bool,
    id: ConnId, terms: Option<string>, phase: Phase)

  datatype LiveDecision = Ready(live: LiveInput) | Duplicate | Invalid

  /** The part of an envelope that the table looks at. */
  datatype Envelope = Envelope(message: MessageId, incarnation: Incarnation, device: Option<Device>)

  datatype Record = Record(
    sameMachine: bool, phase: Phase, deadline: Instant, awaitingOwner: bool, device: Option<Device>,
    incarnation: Option<Incarnation>, terms: Option<string>, nonce: Option<string>, seen: seq<MessageId>)

  function NewRecord(sameMachine: bool, deadline: Instant): Record {
    Record(sameMachine, Phase.Accepted, deadline, false, None, None, None, None, [])
  }

  /** The last `n` entries of a log, or all of a shorter one. */
  function LastOf<T>(log: seq<T>, n: nat): seq<T> {
    if |log| <= n then log else log[|log| - n..]
  }

  // -------------------------------------------------- the table as a value

  datatype Table = Table(records: map<ConnId, Record>, current: map<Device, ConnId>, stopped: bool) {

    predicate CurrentAuthenticated(id: ConnId, phase: Phase, device: Option<Device>) {
      !stopped && phase.Authenticated? && device.Some? && device.value in current && current[device.value] == id
    }

    predicate IsCurrent(id: ConnId) {
      id in records && CurrentAuthenticated(id, records[id].phase, records[id].device)
    }

    function Put(id: ConnId, record: Record): Table {
      this.(records := records[id := record])
    }

    function Accept(id: ConnId, sameMachine: bool, deadline: Instant): Table {
      if stopped then this else Put(id, NewRecord(sameMachine, deadline))
    }

    function Pair(id: ConnId, device: Device, deadline: Instant): (Table, bool) {
      if stopped || id !in records || !records[id].phase.Accepted? || records[id].device.Some? then (this, false)
      else (Put(id, records[id].(device := Some(device), phase := Phase.Paired, deadline := deadline)), true)
    }

    function AwaitOwner(id: ConnId, deadline: Instant): Table {
      if id !in records || records[id].awaitingOwner then this
      else Put(id, records[id].(awaitingOwner := true, deadline := deadline))
    }

    function Challenge(id: ConnId, bind: Option<Device>, terms: string, nonce: string): (Table, ChallengeOutcome) {
      if stopped || id !in records then (this, ChallengeOutcome.Unknown)
      else
        var record := records[id];
        var next := record.(phase := Phase.Challenged, terms := Some(terms), nonce := Some(nonce));
        match record.phase
        case Accepted =>
          if bind.None? then (this, ChallengeOutcome.WrongPhase)
          else (Put(id, next.(device := bind)), ChallengeOutcome.Challenged)
        case Paired =>
          if bind.Some? && record.device != bind then (this, ChallengeOutcome.WrongPhase)
          else (Put(id, next), ChallengeOutcome.Challenged)
        case Superseded => (this, ChallengeOutcome.Superseded)
        case _ => (this, ChallengeOutcome.WrongPhase)
    }

    function TakeNonce(id: ConnId): (Table, NonceAdmission) {
      if stopped then (this, NonceAdmission.WrongPhase)
      else if id !in records then (this, NonceAdmission.Unknown)
      else
        match records[id].phase
        case Challenged =>
          (match records[id].nonce
           case Some(nonce) => (Put(id, records[id].(nonce := None)), Nonce(nonce))
           case None => (this, Missing))
        case Superseded => (this, NonceAdmission.Superseded)
        case _ => (this, NonceAdmission.WrongPhase)
    }

    function Install(id: ConnId): (Table, InstallOutcome) {
      if stopped then (this, InstallOutcome.WrongPhase)
      else if id !in records then (this, InstallOutcome.Unknown)
      else if records[id].phase.Superseded? then (this, InstallOutcome.Superseded)
      else if !records[id].phase.Challenged? || records[id].device.None? then (this, InstallOutcome.WrongPhase)
      else
        var device := records[id].device.value;
        var installed := Table(records[id := records[id].(phase := Phase.Authenticated)], current[device := id],
                               stopped);
        if device in current && current[device] != id && current[device] in records
           && records[current[device]].phase.Authenticated? then
          var previous := current[device];
          (installed.Put(previous, records[previous].(phase := Phase.Superseded)), Installed(Some(previous)))
        else (installed, Installed(None))
    }

    function AuthFailed(id: ConnId): Table {
      if id in records && records[id].phase.Challenged? then Put(id, records[id].(phase := Phase.Closed)) else this
    }

    /** Whether `Live` appends the message to the connection's window. */
    predicate Records(id: ConnId, message: MessageId) {
      !stopped && id in records && message !in records[id].seen
    }

    function Live(id: ConnId, envelope: Envelope): (Table, LiveDecision) {
      if stopped || id !in records then (this, Invalid)
      else if envelope.message in records[id].seen then (this, Duplicate)
      else
        var record := records[id].(seen := LastOf(records[id].seen + [envelope.message], SEEN_MESSAGE_CAP));
        if record.incarnation.Some? && record.incarnation.value != envelope.incarnation then (Put(id, record), Invalid)
        else
          var pinned := record.(incarnation := Some(envelope.incarnation));
          var table := Put(id, pinned);
          if pinned.device.Some? && envelope.device != pinned.device then (table, Invalid)
          else
            var client := if pinned.device.Some? then ByDevice(pinned.device.value)
                else ByIncarnation(envelope.incarnation);
            (table, Ready(LiveInput(client, pinned.sameMachine, pinned.device,
                                    CurrentAuthenticated(id, pinned.phase, pinned.device), id,
                                    pinned.terms, pinned.phase)))
    }

    /** The removed record's device, and whether the fallback callback ran. */
    function Close(id: ConnId): (Table, Option<Device>, bool) {
      if id !in records then (this, None, false)
      else
        var device := records[id].device;
        var table := this.(records := records - {id});
        if device.None? then (table, None, false)
        else if device.value in current && current[device.value] == id then
          (table.(current := current - {device.value}), device, true)
        else (table, device, false)
    }

    /** No device has two authenticated connections, and the current map is
        exactly the authenticated ones. */
    ghost predicate CurrentExact() {
      forall device, id :: (device in current && current[device] == id) <==> HoldsDevice(id, device)
    }

    predicate HoldsDevice(id: ConnId, device: Device) {
      id in records && records[id].phase.Authenticated? && records[id].device == Some(device)
    }

    /** A connection that can never be current again. */
    predicate Finished(id: ConnId) {
      stopped || id !in records || records[id].phase.Rank() == 4
    }
  }

  // ------------------------------------------------------ steps with history

  datatype Event =
    | Accept(id: ConnId, sameMachine: bool, deadline: Instant)
    | Stop
    | Pair(id: ConnId, device: Device, deadline: Instant)
    | AwaitOwner(id: ConnId, deadline: Instant)
    | Challenge(id: ConnId, bind: Option<Device>, terms: string, nonce: string)
    | TakeNonce(id: ConnId)
    | Install(id: ConnId)
    | AuthFailed(id: ConnId)
    | Live(id: ConnId, envelope: Envelope)
    | Close(id: ConnId)

  /** The table with what has happened so far: every id accepted, the unbounded
      log of recorded message ids, the nonces handed out and the incarnations
      of the Ready verdicts. */
  datatype World = World(
    table: Table, issued: set<ConnId>, logs: map<ConnId, seq<MessageId>>,
    nonces: map<ConnId, seq<string>>, ready: map<ConnId, set<Incarnation>>)

  const EMPTY_WORLD := World(Table(map[], map[], false), {}, map[], map[], map[])

  function LogOf<T>(logs: map<ConnId, seq<T>>, id: ConnId): seq<T> {
    if id in logs then logs[id] else []
  }

  function ReadyOf(w: World, id: ConnId): set<Incarnation> {
    if id in w.ready then w.ready[id] else {}
  }

  function Apply(table: Table, e: Event): Table {
    match e
    case Accept(id, sameMachine, deadline) => table.Accept(id, sameMachine, deadline)
    case Stop => table.(stopped := true)
    case Pair(id, device, deadline) => table.Pair(id, device, deadline).0
    case AwaitOwner(id, deadline) => table.AwaitOwner(id, deadline)
    case Challenge(id, bind, terms, nonce) => table.Challenge(id, bind, terms, nonce).0
    case TakeNonce(id) => table.TakeNonce(id).0
    case Install(id) => table.Install(id).0
    case AuthFailed(id) => table.AuthFailed(id)
    case Live(id, envelope) => table.Live(id, envelope).0
    case Close(id) => table.Close(id).0
  }

  function Next(w: World, e: Event): World {
    var after := w.(table := Apply(w.table, e));
    match e
    case Accept(id, _, _) => after.(issued := w.issued + {id})
    case TakeNonce(id) =>
      var out := w.table.TakeNonce(id).1;
      if out.Nonce? then after.(nonces := w.nonces[id := LogOf(w.nonces, id) + [out.nonce]]) else after
    case Live(id, envelope) =>
      var logged := if w.table.Records(id, envelope.message)
                    then after.(logs := w.logs[id := LogOf(w.logs, id) + [envelope.message]]) else after;
      if w.table.Live(id, envelope).1.Ready?
      then logged.(ready := w.ready[id := ReadyOf(w, id) + {envelope.incarnation}]) else logged
    case _ => after
  }

  /** A run from the empty table in which accepted ids are fresh. */
  ghost predicate IsRun(worlds: seq<World>, events: seq<Event>) {
    && |worlds| == |events| + 1
    && worlds[0] == EMPTY_WORLD
    && (forall i :: 0 <= i < |events| ==> StepOf(worlds[i], events[i], worlds[i + 1]))
  }

  ghost predicate StepOf(w: World, e: Event, next: World) {
    next == Next(w, e) && (e.Accept? ==> e.id !in w.issued)
  }

  // --------------------------------------------------------- the invariant

  /** Entries at most 128 apart are different. */
  ghost predicate NoRecentRepeat(log: seq<MessageId>) {
    forall i, j :: 0 <= i < j < |log| && j - i <= SEEN_MESSAGE_CAP ==> log[i] != log[j]
  }

  ghost predicate RecordInv(w: World, id: ConnId)
    requires id in w.table.records
  {
    var record := w.table.records[id];
    && id in w.issued
    && record.seen == LastOf(LogOf(w.logs, id), SEEN_MESSAGE_CAP)
    && (record.phase.Rank() < 2 ==> record.nonce.None? && LogOf(w.nonces, id) == [])
    && (record.phase.Challenged? && record.nonce.Some? ==> LogOf(w.nonces, id) == [])
    && (forall seen :: seen in ReadyOf(w, id) ==> record.incarnation == Some(seen))
  }

  ghost predicate Inv(w: World) {
    && w.table.CurrentExact()
    && w.logs.Keys <= w.issued && w.nonces.Keys <= w.issued && w.ready.Keys <= w.issued
    && (forall id :: id in w.table.records ==> RecordInv(w, id))
    && (forall id :: NoRecentRepeat(LogOf(w.logs, id)))
    && (forall id :: |LogOf(w.nonces, id)| <= 1)
    && (forall id, a, b :: a in ReadyOf(w, id) && b in ReadyOf(w, id) ==> a == b)
  }

  /** The current map stays exact under every step. */
  lemma CurrentExactKept(table: Table, e: Event)
    requires table.CurrentExact()
    requires e.Accept? ==> e.id !in table.records
    ensures Apply(table, e).CurrentExact()
  {
    var next := Apply(table, e);
    forall device, id
      ensures (device in next.current && next.current[device] == id) <==> next.HoldsDevice(id, device)
    {
      assert (device in table.current && table.current[device] == id) <==> table.HoldsDevice(id, device);
      if e.Install? && e.id in table.records && table.records[e.id].device.Some? {
        var taken := table.records[e.id].device.value;
        if taken in table.current {
          assert table.HoldsDevice(table.current[taken], taken);
        }
        assert table.HoldsDevice(id, taken) <==> taken in table.current && table.current[taken] == id;
      }
      if e.Close? && e.id in table.records && table.records[e.id].device.Some? {
        var lost := table.records[e.id].device.value;
        assert table.HoldsDevice(e.id, lost) <==> lost in table.current && table.current[lost] == e.id;
      }
    }
  }

  /** Installing supersedes the previous connection of the device and reports
      it, exactly when there is one. */
  lemma InstallSupersedes(table: Table, id: ConnId, earlier: ConnId)
    requires table.CurrentExact() && table.Install(id).1.Installed?
    ensures var (next, outcome) := table.Install(id);
            && next.IsCurrent(id)
            && (outcome.superseded == Some(earlier)
                <==> earlier != id && table.HoldsDevice(earlier, table.records[id].device.value))
            && (outcome.superseded == Some(earlier) ==> table.IsCurrent(earlier) && next.Finished(earlier))
  {
    var device := table.records[id].device.value;
    assert table.HoldsDevice(earlier, device) <==> device in table.current && table.current[device] == earlier;
    assert !table.HoldsDevice(id, device);
    if device in table.current {
      assert table.HoldsDevice(table.current[device], device);
    }
  }

  lemma AppendKeepsWindow(log: seq<MessageId>, message: MessageId)
    requires NoRecentRepeat(log) && message !in LastOf(log, SEEN_MESSAGE_CAP)
    ensures NoRecentRepeat(log + [message])
    ensures LastOf(LastOf(log, SEEN_MESSAGE_CAP) + [message], SEEN_MESSAGE_CAP)
            == LastOf(log + [message], SEEN_MESSAGE_CAP)
  {
    var window := LastOf(log, SEEN_MESSAGE_CAP);
    forall i | 0 <= i < |log| && |log| - i <= SEEN_MESSAGE_CAP ensures log[i] != message {
      assert window[i - (|log| - |window|)] == log[i];
    }
  }

  lemma LogsKept(w: World, e: Event, id: ConnId)
    requires Inv(w)
    ensures NoRecentRepeat(LogOf(Next(w, e).logs, id))
    ensures |LogOf(Next(w, e).nonces, id)| <= 1
  {
    if id in w.table.records {
      assert RecordInv(w, id);
    }
    assert |LogOf(w.nonces, id)| <= 1 && NoRecentRepeat(LogOf(w.logs, id));
    if e.Live? && e.id == id && w.table.Records(id, e.envelope.message) {
      AppendKeepsWindow(LogOf(w.logs, id), e.envelope.message);
    }
  }

  /** What a `Live` step does to the record it looks at and to its histories. */
  lemma LiveChange(w: World, id: ConnId, envelope: Envelope)
    requires id in w.table.records
    ensures var next, was := Next(w, Event.Live(id, envelope)), w.table.records[id];
            var logged := w.table.Records(id, envelope.message);
            && id in next.table.records && next.issued == w.issued && next.nonces == w.nonces
            && var now := next.table.records[id];
               && now.phase == was.phase && now.nonce == was.nonce
               && now.seen == (if logged then LastOf(was.seen + [envelope.message], SEEN_MESSAGE_CAP) else was.seen)
               && LogOf(next.logs, id) == (if logged then LogOf(w.logs, id) + [envelope.message] else LogOf(w.logs, id))
               && (was.incarnation.Some? ==> now.incarnation == was.incarnation)
               && (ReadyOf(next, id) == ReadyOf(w, id)
                   || (ReadyOf(next, id) == ReadyOf(w, id) + {envelope.incarnation} &&
                       now.incarnation == Some(envelope.incarnation)))
  {
  }

  lemma LiveKeepsRecord(w: World, id: ConnId, envelope: Envelope)
    requires Inv(w) && id in w.table.records
    ensures RecordInv(Next(w, Event.Live(id, envelope)), id)
  {
    assert RecordInv(w, id);
    LiveChange(w, id, envelope);
    if w.table.Records(id, envelope.message) {
      AppendKeepsWindow(LogOf(w.logs, id), envelope.message);
    }
  }

  /** Every other step leaves the window and the pinned incarnation of a
      record alone, and a nonce appears only with its challenge. */
  lemma RecordChange(table: Table, e: Event, id: ConnId)
    requires id in table.records && id in Apply(table, e).records
    requires e.Accept? || e.Live? ==> e.id != id
    ensures var was, now := table.records[id], Apply(table, e).records[id];
            && now.seen == was.seen && now.incarnation == was.incarnation
            && was.phase.Rank() <= now.phase.Rank()
            && (now.nonce == was.nonce || now.nonce.None? || (was.phase.Rank() < 2 && now.phase.Challenged?))
            && (now.nonce != was.nonce && now.nonce.None? ==> e == Event.TakeNonce(id))
  {
  }

  lemma HistoryChange(w: World, e: Event, id: ConnId)
    ensures var next := Next(w, e);
            && (!(e.Live? && e.id == id) ==>
                LogOf(next.logs, id) == LogOf(w.logs, id) && ReadyOf(next, id) == ReadyOf(w, id))
            && (e != Event.TakeNonce(id) ==> LogOf(next.nonces, id) == LogOf(w.nonces, id))
            && (e.Accept? ==> e.id in next.issued) && w.issued <= next.issued
            && next.table == Apply(w.table, e)
  {
  }

  lemma RecordKept(w: World, e: Event, id: ConnId)
    requires Inv(w) && (e.Accept? ==> e.id !in w.issued) && id in Apply(w.table, e).records
    ensures RecordInv(Next(w, e), id)
  {
    HistoryChange(w, e, id);
    if id !in w.table.records {
      NewRecordOnlyByAccept(w.table, e, id);
    } else if e.Live? && e.id == id {
      LiveKeepsRecord(w, id, e.envelope);
    } else if e == Event.TakeNonce(id) {
      assert RecordInv(w, id);
    } else {
      assert RecordInv(w, id);
      RecordChange(w.table, e, id);
    }
  }

  lemma NewRecordOnlyByAccept(table: Table, e: Event, id: ConnId)
    requires id !in table.records && id in Apply(table, e).records
    ensures e.Accept? && e.id == id && Apply(table, e).records[id] == NewRecord(e.sameMachine, e.deadline)
  {
  }

  lemma ReadyKept(w: World, e: Event, id: ConnId, a: Incarnation, b: Incarnation)
    requires Inv(w) && (e.Accept? ==> e.id !in w.issued)
    requires a in ReadyOf(Next(w, e), id) && b in ReadyOf(Next(w, e), id)
    ensures a == b
  {
    if id in Next(w, e).table.records {
      RecordKept(w, e, id);
    } else {
      assert ReadyOf(Next(w, e), id) == ReadyOf(w, id);
    }
  }

  lemma InvKept(w: World, e: Event)
    requires Inv(w) && (e.Accept? ==> e.id !in w.issued)
    ensures Inv(Next(w, e))
  {
    var next := Next(w, e);
    CurrentExactKept(w.table, e);
    forall id | id in next.table.records ensures RecordInv(next, id) {
      RecordKept(w, e, id);
    }
    forall id ensures NoRecentRepeat(LogOf(next.logs, id)) && |LogOf(next.nonces, id)| <= 1 {
      LogsKept(w, e, id);
    }
    forall id, a, b | a in ReadyOf(next, id) && b in ReadyOf(next, id) ensures a == b {
      ReadyKept(w, e, id, a, b);
    }
    HistoriesIssued(w, e);
  }

  lemma HistoriesIssued(w: World, e: Event)
    requires Inv(w)
    ensures var next := Next(w, e);
            next.logs.Keys <= next.issued && next.nonces.Keys <= next.issued && next.ready.Keys <= next.issued
  {
    if (e.Live? || e.TakeNonce?) && e.id in w.table.records {
      assert RecordInv(w, e.id);
    }
  }

  lemma {:induction false} InvHolds(worlds: seq<World>, events: seq<Event>, i: nat)
    requires IsRun(worlds, events) && i < |worlds|
    ensures Inv(worlds[i])
  {
    if i > 0 {
      InvHolds(worlds, events, i - 1);
      assert StepOf(worlds[i - 1], events[i - 1], worlds[i]);
      InvKept(worlds[i - 1], events[i - 1]);
    }
  }

  /** The bijection between devices and authenticated connections holds in
      every reachable state; in particular two authenticated connections of one
      device are the same. */
  lemma CurrentBijection(worlds: seq<World>, events: seq<Event>, i: nat, device: Device, a: ConnId, b: ConnId)
    requires IsRun(worlds, events) && i < |worlds|
    ensures var t := worlds[i].table;
            && ((device in t.current && t.current[device] == a) <==> t.HoldsDevice(a, device))
            && (t.HoldsDevice(a, device) && t.HoldsDevice(b, device) ==> a == b)
  {
    InvHolds(worlds, events, i);
    var t := worlds[i].table;
    assert t.HoldsDevice(b, device) <==> device in t.current && t.current[device] == b;
  }

  // -------------------------------------------------- phases and supersession

  /** A phase's rank, and past every phase once the record is gone. */
  function Progress(table: Table, id: ConnId): nat {
    if id in table.records then table.records[id].phase.Rank() else 5
  }

  lemma StepMovesForward(table: Table, e: Event, id: ConnId)
    requires e.Accept? ==> e.id != id
    ensures Progress(table, id) <= Progress(Apply(table, e), id)
    ensures table.Finished(id) ==> Apply(table, e).Finished(id)
  {
    if e.Install? && id in table.records {
      var next := Apply(table, e);
      assert id in next.records;
    }
  }

  /** Phases only move forward, over any stretch of any run. */
  lemma {:induction false} PhasesMoveForward(worlds: seq<World>, events: seq<Event>, i: nat, j: nat, id: ConnId)
    requires IsRun(worlds, events) && i <= j < |worlds| && id in worlds[i].issued
    ensures id in worlds[j].issued && Progress(worlds[i].table, id) <= Progress(worlds[j].table, id)
    ensures worlds[i].table.Finished(id) ==> worlds[j].table.Finished(id)
    decreases j - i
  {
    if i < j {
      InvHolds(worlds, events, i);
      assert StepOf(worlds[i], events[i], worlds[i + 1]);
      StepMovesForward(worlds[i].table, events[i], id);
      PhasesMoveForward(worlds, events, i + 1, j, id);
    }
  }

  /** Supersession is final: from the step after a newer connection of the same
      device is installed over it, after it closes, or after admission stops,
      the commit closure never runs for the earlier connection again. */
  lemma SupersessionIsFinal(worlds: seq<World>, events: seq<Event>, i: nat, j: nat, earlier: ConnId)
    requires IsRun(worlds, events) && i < |events| && i < j < |worlds| && earlier in worlds[i].issued
    requires var e, t := events[i], worlds[i].table;
             || e.Stop?
             || (e.Close? && e.id == earlier)
             || (e.Install? && e.id != earlier && t.Install(e.id).1.Installed?
                 && t.HoldsDevice(earlier, t.records[e.id].device.value))
    ensures !worlds[j].table.IsCurrent(earlier)
  {
    InvHolds(worlds, events, i);
    assert StepOf(worlds[i], events[i], worlds[i + 1]);
    var e, t := events[i], worlds[i].table;
    if e.Install? {
      InstallSupersedes(t, e.id, earlier);
    }
    assert worlds[i + 1].table.Finished(earlier);
    StepMovesForward(worlds[i].table, e, earlier);
    PhasesMoveForward(worlds, events, i + 1, j, earlier);
  }

  /** A challenge nonce is handed out at most once per connection. */
  lemma NonceOnce(worlds: seq<World>, events: seq<Event>, i: nat, j: nat, id: ConnId)
    requires IsRun(worlds, events) && i < j < |events|
    requires events[i] == Event.TakeNonce(id) && worlds[i].table.TakeNonce(id).1.Nonce?
    requires events[j] == Event.TakeNonce(id)
    ensures !worlds[j].table.TakeNonce(id).1.Nonce?
  {
    InvHolds(worlds, events, i);
    InvHolds(worlds, events, j);
    InvHolds(worlds, events, j + 1);
    assert StepOf(worlds[i], events[i], worlds[i + 1]);
    assert StepOf(worlds[j], events[j], worlds[j + 1]);
    assert RecordInv(worlds[i], id);
    NoncesKept(worlds, events, i + 1, j, id);
  }

  lemma {:induction false} NoncesKept(worlds: seq<World>, events: seq<Event>, i: nat, j: nat, id: ConnId)
    requires IsRun(worlds, events) && i <= j < |worlds| && id in worlds[i].issued
    ensures LogOf(worlds[i].nonces, id) <= LogOf(worlds[j].nonces, id)
    decreases j - i
  {
    if i < j {
      InvHolds(worlds, events, i);
      assert StepOf(worlds[i], events[i], worlds[i + 1]);
      StepMovesForward(worlds[i].table, events[i], id);
      NoncesKept(worlds, events, i + 1, j, id);
    }
  }

  // ------------------------------------------------------- the replay window

  /** The bounded window is the tail of the unbounded log of recorded ids and
      holds no id twice; all Ready verdicts of a connection share one pinned
      incarnation. */
  lemma WindowRefinesLog(worlds: seq<World>, events: seq<Event>, i: nat, id: ConnId)
    requires IsRun(worlds, events) && i < |worlds|
    ensures id in worlds[i].table.records ==>
              var seen := worlds[i].table.records[id].seen;
              && seen == LastOf(LogOf(worlds[i].logs, id), SEEN_MESSAGE_CAP)
              && (forall a, b :: 0 <= a < b < |seen| ==> seen[a] != seen[b])
    ensures forall a, b :: a in ReadyOf(worlds[i], id) && b in ReadyOf(worlds[i], id) ==> a == b
  {
    InvHolds(worlds, events, i);
    if id in worlds[i].table.records {
      assert RecordInv(worlds[i], id);
    }
  }

  function Range(log: seq<MessageId>, low: nat, high: nat): set<MessageId>
    requires low <= high <= |log|
  {
    set k | low <= k < high :: log[k]
  }

  lemma RangeGrows(log: seq<MessageId>, low: nat, high: nat)
    requires NoRecentRepeat(log) && low < high <= |log| && high - low <= SEEN_MESSAGE_CAP + 1
    ensures |Range(log, low, high)| == |Range(log, low, high - 1)| + 1
  {
    var earlier, message := Range(log, low, high - 1), log[high - 1];
    assert message !in earlier;
    assert Range(log, low, high) == earlier + {message};
  }

  lemma {:induction false} DistinctRange(log: seq<MessageId>, low: nat, high: nat)
    requires NoRecentRepeat(log) && low <= high <= |log| && high - low <= SEEN_MESSAGE_CAP + 1
    ensures |Range(log, low, high)| == high - low
    decreases high - low
  {
    if low < high {
      DistinctRange(log, low, high - 1);
      RangeGrows(log, low, high);
    }
  }

  /** An id is recorded twice only with at least 128 distinct other ids
      recorded in between. */
  lemma RepeatNeedsDistinctOthers(worlds: seq<World>, events: seq<Event>, i: nat, id: ConnId, a: nat, b: nat)
    requires IsRun(worlds, events) && i < |worlds|
    requires a < b < |LogOf(worlds[i].logs, id)| && LogOf(worlds[i].logs, id)[a] == LogOf(worlds[i].logs, id)[b]
    ensures var log := LogOf(worlds[i].logs, id);
            && b - SEEN_MESSAGE_CAP > a
            && log[b] !in Range(log, b - SEEN_MESSAGE_CAP, b)
            && |Range(log, b - SEEN_MESSAGE_CAP, b)| == SEEN_MESSAGE_CAP
  {
    InvHolds(worlds, events, i);
    var log := LogOf(worlds[i].logs, id);
    DistinctRange(log, b - SEEN_MESSAGE_CAP, b);
  }

  // ------------------------------------- what the events told a connection

  /** The challenge that is answered with its acceptance. */
  predicate IsChallenged(table: Table, e: Event, id: ConnId) {
    e.Challenge? && e.id == id && table.Challenge(id, e.bind, e.terms, e.nonce).1 == ChallengeOutcome.Challenged
  }

  predicate IsPaired(table: Table, e: Event, id: ConnId) {
    e.Pair? && e.id == id && table.Pair(id, e.device, e.deadline).1
  }

  /** The latest accepted challenge of a connection among the first `i` events. */
  ghost function ChallengeOf(worlds: seq<World>, events: seq<Event>, i: nat, id: ConnId): (challenge: Option<Event>)
    requires i <= |events| < |worlds|
    ensures challenge.Some? ==> challenge.value.Challenge? && challenge.value.id == id
  {
    if i == 0 then None
    else if IsChallenged(worlds[i - 1].table, events[i - 1], id) then Some(events[i - 1])
    else ChallengeOf(worlds, events, i - 1, id)
  }

  /** The device a connection was bound to, by its pairing or its challenge. */
  ghost function DeviceOf(worlds: seq<World>, events: seq<Event>, i: nat, id: ConnId): Option<Device>
    requires i <= |events| < |worlds|
  {
    if i == 0 then None
    else
      var table, e := worlds[i - 1].table, events[i - 1];
      if IsPaired(table, e, id) then Some(e.device)
      else if IsChallenged(table, e, id) && e.bind.Some? then e.bind
      else DeviceOf(worlds, events, i - 1, id)
  }

  /** The event that accepted a connection. */
  ghost function AcceptOf(events: seq<Event>, i: nat, id: ConnId): (accept: Option<Event>)
    requires i <= |events|
    ensures accept.Some? ==> accept.value.Accept? && accept.value.id == id
  {
    if i == 0 then None
    else if events[i - 1].Accept? && events[i - 1].id == id then Some(events[i - 1])
    else AcceptOf(events, i - 1, id)
  }

  /** The deadline last given: at the acceptance, at the pairing, and once while the
      owner is asked. */
  ghost function DeadlineOf(worlds: seq<World>, events: seq<Event>, i: nat, id: ConnId): Instant
    requires i <= |events| < |worlds|
  {
    if i == 0 then 0
    else
      var table, e := worlds[i - 1].table, events[i - 1];
      if e.Accept? && e.id == id then e.deadline
      else if IsPaired(table, e, id) then e.deadline
      else if e.AwaitOwner? && e.id == id && id in table.records && !Asked(events, i - 1, id) then e.deadline
      else DeadlineOf(worlds, events, i - 1, id)
  }

  /** Whether the owner was asked since the connection was accepted. */
  ghost function Asked(events: seq<Event>, i: nat, id: ConnId): bool
    requires i <= |events|
  {
    i > 0 && (if events[i - 1].Accept? && events[i - 1].id == id then false
              else (events[i - 1].AwaitOwner? && events[i - 1].id == id) || Asked(events, i - 1, id))
  }

  /** The record holds what the events said. */
  ghost predicate IsTold(worlds: seq<World>, events: seq<Event>, i: nat, id: ConnId)
    requires i <= |events| < |worlds| && id in worlds[i].table.records
  {
    var record, challenge := worlds[i].table.records[id], ChallengeOf(worlds, events, i, id);
    && record.terms == (if challenge.Some? then Some(challenge.value.terms) else None)
    && (record.nonce.Some? ==> challenge.Some? && record.nonce.value == challenge.value.nonce)
    && record.device == DeviceOf(worlds, events, i, id)
    && (record.phase.Accepted? ==> challenge.None? && record.device.None?)
    && AcceptOf(events, i, id).Some? && record.sameMachine == AcceptOf(events, i, id).value.sameMachine
    && record.deadline == DeadlineOf(worlds, events, i, id)
    && record.awaitingOwner == Asked(events, i, id)
  }

  /** What a step does to the parts of a record that events fill in. */
  lemma RecordFilled(table: Table, e: Event, id: ConnId)
    requires id in table.records && id in Apply(table, e).records && !(e.Accept? && e.id == id)
    ensures var was, now := table.records[id], Apply(table, e).records[id];
            && now.sameMachine == was.sameMachine
            && now.terms == (if IsChallenged(table, e, id) then Some(e.terms) else was.terms)
            && (now.nonce == was.nonce || now.nonce.None? || (IsChallenged(table, e, id) && now.nonce == Some(e.nonce)))
            && (IsChallenged(table, e, id) ==> now.nonce == Some(e.nonce))
            && now.device == (if IsPaired(table, e, id) then Some(e.device)
                              else if IsChallenged(table, e, id) && e.bind.Some? then e.bind
                              else was.device)
            && (now.phase.Accepted? ==> was.phase.Accepted? && !IsPaired(table, e, id) && !IsChallenged(table, e, id))
  {
  }

  lemma DeadlineFilled(table: Table, e: Event, id: ConnId)
    requires id in table.records && id in Apply(table, e).records && !(e.Accept? && e.id == id)
    ensures var was, now := table.records[id], Apply(table, e).records[id];
            && now.awaitingOwner == (was.awaitingOwner || (e.AwaitOwner? && e.id == id))
            && now.deadline == (if IsPaired(table, e, id) then e.deadline
                                else if e.AwaitOwner? && e.id == id && !was.awaitingOwner then e.deadline
                                else was.deadline)
  {
  }

  /** Nothing has been said to a connection before it is accepted. */
  lemma {:induction false} NothingBefore(worlds: seq<World>, events: seq<Event>, i: nat, id: ConnId)
    requires IsRun(worlds, events) && i < |worlds| && id !in worlds[i].issued
    ensures ChallengeOf(worlds, events, i, id).None? && DeviceOf(worlds, events, i, id).None?
  {
    if i > 0 {
      assert StepOf(worlds[i - 1], events[i - 1], worlds[i]);
      InvHolds(worlds, events, i - 1);
      assert id !in worlds[i - 1].issued;
      NotAcceptedYet(worlds[i - 1], id);
      NothingBefore(worlds, events, i - 1, id);
    }
  }

  lemma NotAcceptedYet(w: World, id: ConnId)
    requires Inv(w) && id !in w.issued
    ensures id !in w.table.records
  {
  }

  lemma AcceptTells(worlds: seq<World>, events: seq<Event>, i: nat, id: ConnId)
    requires IsRun(worlds, events) && 0 < i < |worlds| && events[i - 1].Accept? && events[i - 1].id == id
    requires id in worlds[i].table.records
    ensures IsTold(worlds, events, i, id)
  {
    assert StepOf(worlds[i - 1], events[i - 1], worlds[i]);
    InvHolds(worlds, events, i - 1);
    assert id in worlds[i - 1].table.records ==> RecordInv(worlds[i - 1], id);
    NothingBefore(worlds, events, i - 1, id);
    NewRecordOnlyByAccept(worlds[i - 1].table, events[i - 1], id);
  }

  lemma {:induction false} ToldHolds(worlds: seq<World>, events: seq<Event>, i: nat, id: ConnId)
    requires IsRun(worlds, events) && i < |worlds| && id in worlds[i].table.records
    ensures IsTold(worlds, events, i, id)
  {
    assert i > 0;
    var table, e := worlds[i - 1].table, events[i - 1];
    assert StepOf(worlds[i - 1], e, worlds[i]);
    HistoryChange(worlds[i - 1], e, id);
    if e.Accept? && e.id == id {
      AcceptTells(worlds, events, i, id);
    } else {
      if id !in table.records { NewRecordOnlyByAccept(table, e, id); }
      ToldHolds(worlds, events, i - 1, id);
      RecordFilled(table, e, id);
      DeadlineFilled(table, e, id);
    }
  }

  /** The nonce handed out is the one of the connection's challenge. */
  lemma NonceOfChallenge(worlds: seq<World>, events: seq<Event>, i: nat, id: ConnId)
    requires IsRun(worlds, events) && i < |worlds| && worlds[i].table.TakeNonce(id).1.Nonce?
    ensures var challenge := ChallengeOf(worlds, events, i, id);
            challenge.Some? && worlds[i].table.TakeNonce(id).1.nonce == challenge.value.nonce
  {
    ToldHolds(worlds, events, i, id);
  }

  /** A message is let through exactly when admission is open, its id is not in the
      window, its incarnation is the pinned one and its device the bound one. */
  lemma ReadyIff(table: Table, id: ConnId, envelope: Envelope)
    ensures table.Live(id, envelope).1.Ready? <==>
              && !table.stopped && id in table.records && envelope.message !in table.records[id].seen
              && table.records[id].incarnation in {None, Some(envelope.incarnation)}
              && table.records[id].device in {None, envelope.device}
    ensures table.Live(id, envelope).1.Duplicate? <==>
              !table.stopped && id in table.records && envelope.message in table.records[id].seen
  {
  }

  /** What a message that is let through acts under: the class its connection was
      accepted with, the terms of its challenge, the device it was bound to, which
      the envelope claimed, and whether it is the device's current connection. */
  lemma ReadyCarries(worlds: seq<World>, events: seq<Event>, i: nat, id: ConnId, envelope: Envelope)
    requires IsRun(worlds, events) && i < |worlds| && worlds[i].table.Live(id, envelope).1.Ready?
    ensures var live, challenge := worlds[i].table.Live(id, envelope).1.live, ChallengeOf(worlds, events, i, id);
            && live.id == id && live.phase == worlds[i].table.records[id].phase
            && AcceptOf(events, i, id).Some? && live.sameMachine == AcceptOf(events, i, id).value.sameMachine
            && live.terms == (if challenge.Some? then Some(challenge.value.terms) else None)
            && live.device == DeviceOf(worlds, events, i, id)
            && (live.device.Some? ==> envelope.device == live.device && live.client == ByDevice(live.device.value))
            && (live.device.None? ==> live.client == ByIncarnation(envelope.incarnation))
            && (live.authed <==> worlds[i].table.IsCurrent(id))
  {
    ToldHolds(worlds, events, i, id);
  }

  /** The deadline that `PreauthExpired` compares is the one last given. */
  lemma DeadlineGiven(worlds: seq<World>, events: seq<Event>, i: nat, id: ConnId)
    requires IsRun(worlds, events) && i < |worlds| && id in worlds[i].table.records
    ensures worlds[i].table.records[id].deadline == DeadlineOf(worlds, events, i, id)
  {
    ToldHolds(worlds, events, i, id);
  }

  /** Which connections can be paired and which authenticated. */
  lemma PairAndInstallAnswers(table: Table, id: ConnId, device: Device, deadline: Instant)
    ensures table.Pair(id, device, deadline).1 <==>
              !table.stopped && id in table.records && table.records[id].phase.Accepted?
              && table.records[id].device.None?
    ensures var answer, known := table.Install(id).1, !table.stopped && id in table.records;
            && (answer.Unknown? <==> !table.stopped && id !in table.records)
            && (answer.Superseded? <==> known && table.records[id].phase.Superseded?)
            && (answer.Installed? <==> known && table.records[id].phase.Challenged? && table.records[id].device.Some?)
  {
  }

  /** What a request for the nonce is answered. */
  lemma NonceAnswers(table: Table, id: ConnId)
    ensures var answer, known := table.TakeNonce(id).1, !table.stopped && id in table.records;
            && (answer.Unknown? <==> !table.stopped && id !in table.records)
            && (answer.Superseded? <==> known && table.records[id].phase.Superseded?)
            && (answer.WrongPhase? <==>
                  table.stopped || (known && table.records[id].phase !in {Phase.Challenged, Phase.Superseded}))
            && (answer.Nonce? <==> known && table.records[id].phase.Challenged? && table.records[id].nonce.Some?)
  {
  }

  lemma {:induction false} NonceWaits(worlds: seq<World>, events: seq<Event>, i: nat, id: ConnId)
    requires IsRun(worlds, events) && i < |worlds| && id in worlds[i].table.records
    requires worlds[i].table.records[id].phase.Challenged? && LogOf(worlds[i].nonces, id) == []
    ensures worlds[i].table.records[id].nonce.Some?
  {
    assert i > 0;
    var w, e := worlds[i - 1], events[i - 1];
    assert StepOf(w, e, worlds[i]);
    if id in w.table.records && w.table.records[id].phase.Challenged? && LogOf(w.nonces, id) == [] {
      NonceWaits(worlds, events, i - 1, id);
    }
    NonceStays(w, e, id);
  }

  lemma NonceStays(w: World, e: Event, id: ConnId)
    requires id in Next(w, e).table.records && Next(w, e).table.records[id].phase.Challenged?
    requires LogOf(Next(w, e).nonces, id) == []
    requires id in w.table.records && w.table.records[id].phase.Challenged? && LogOf(w.nonces, id) == [] ==>
               w.table.records[id].nonce.Some?
    ensures Next(w, e).table.records[id].nonce.Some?
  {
    if Next(w, e).table.records[id].nonce.None? {
      NonceTaken(w.table, e, id);
      HistoryChange(w, e, id);
    }
  }

  lemma NonceTaken(table: Table, e: Event, id: ConnId)
    requires id in Apply(table, e).records && Apply(table, e).records[id].phase.Challenged?
    requires Apply(table, e).records[id].nonce.None?
    ensures id in table.records && table.records[id].phase.Challenged?
    ensures table.records[id].nonce.None? || (e == TakeNonce(id) && table.TakeNonce(id).1.Nonce?)
  {
  }

  /** Over runs a nonce is handed out exactly when admission is open, the connection
      stands challenged and none has been handed out to it. */
  lemma NonceOffered(worlds: seq<World>, events: seq<Event>, i: nat, id: ConnId)
    requires IsRun(worlds, events) && i < |worlds|
    ensures worlds[i].table.TakeNonce(id).1.Nonce? <==>
              && !worlds[i].table.stopped && id in worlds[i].table.records
              && worlds[i].table.records[id].phase.Challenged? && LogOf(worlds[i].nonces, id) == []
  {
    InvHolds(worlds, events, i);
    if id in worlds[i].table.records {
      assert RecordInv(worlds[i], id);
      if worlds[i].table.records[id].phase.Challenged? && LogOf(worlds[i].nonces, id) == [] {
        NonceWaits(worlds, events, i, id);
      }
    }
  }

  /** The event moves the connection to another phase. */
  predicate Moves(table: Table, e: Event, id: ConnId, to: Phase)
    requires id in table.records
  {
    match e
    case Pair(c, _, _) => c == id && to.Paired? && table.records[id].phase.Accepted? && table.records[id].device.None?
    case Challenge(c, bind, _, _) =>
      && c == id && to.Challenged?
      && if table.records[id].phase.Accepted? then bind.Some?
         else table.records[id].phase.Paired? && bind in {None, table.records[id].device}
    case Install(c) =>
      && c in table.records && table.records[c].phase.Challenged? && table.records[c].device.Some?
      && if c == id then to.Authenticated?
         else to.Superseded? && table.HoldsDevice(id, table.records[c].device.value)
    case _ => false
  }

  /** Every change of phase: pairing, challenging and authenticating while admission
      is open, superseding the connection that holds the device of the one that is
      authenticated, and closing a challenged one that fails. Nothing else moves a
      connection, and only closing removes it. */
  lemma PhaseMoves(table: Table, e: Event, id: ConnId)
    requires table.CurrentExact() && id in table.records && (e.Accept? ==> e.id != id)
    ensures var next := Apply(table, e).records;
            && (id in next <==> e != Close(id))
            && (id in next ==> forall to :: to != table.records[id].phase ==>
                  (next[id].phase == to <==>
                     || (!table.stopped && Moves(table, e, id, to))
                     || (e == AuthFailed(id) && table.records[id].phase.Challenged? && to.Closed?)))
  {
    if e.Install? && e.id in table.records && table.records[e.id].device.Some? {
      var device := table.records[e.id].device.value;
      assert (device in table.current && table.current[device] == id) <==> table.HoldsDevice(id, device);
    }
  }

  /** A connection starts accepted, unbound, with an empty window, while admission is
      open; stopping closes admission and changes nothing else. */
  lemma AcceptAndStop(table: Table, id: ConnId, sameMachine: bool, deadline: Instant)
    ensures var next := Apply(table, Accept(id, sameMachine, deadline));
            && (table.stopped ==> next == table)
            && (!table.stopped ==>
                  && id in next.records && next.records - {id} == table.records - {id}
                  && next.current == table.current && !next.stopped
                  && var r := next.records[id];
                     && r.phase.Accepted? && r.device.None? && r.incarnation.None? && r.nonce.None? && r.terms.None?
                     && !r.awaitingOwner && r.seen == [] && r.sameMachine == sameMachine && r.deadline == deadline)
    ensures var next := Apply(table, Stop);
            next.stopped && next.records == table.records && next.current == table.current
  {
  }

  /** Closing reports the device whose current connection goes with it. */
  lemma CloseAnswers(table: Table, id: ConnId)
    requires table.CurrentExact()
    ensures var (next, device, fallback) := table.Close(id);
            && next.records == table.records - {id}
            && device == (if id in table.records then table.records[id].device else None)
            && (fallback <==> exists d :: table.HoldsDevice(id, d))
            && (forall d :: d in next.current <==> d in table.current && table.current[d] != id)
            && (forall d :: d in next.current ==> next.current[d] == table.current[d])
  {
    forall d ensures (d in table.current && table.current[d] == id) <==> table.HoldsDevice(id, d) {
    }
  }

  /** Which connections can be challenged, and what the others are told. */
  lemma ChallengeAnswers(table: Table, id: ConnId, bind: Option<Device>, terms: string, nonce: string)
    ensures var answer, known := table.Challenge(id, bind, terms, nonce).1, !table.stopped && id in table.records;
            && (answer.Unknown? <==> !known)
            && (answer.Superseded? <==> known && table.records[id].phase.Superseded?)
            && (answer.Challenged? <==>
                  known && (if table.records[id].phase.Accepted? then bind.Some?
                            else table.records[id].phase.Paired? && bind in {None, table.records[id].device}))
  {
  }

  // ------------------------------------------------------- the shared object

  class ConnectionTable {
    var records: map<ConnId, Record>
    var current: map<Device, ConnId>
    var stopped: bool

    function View(): Table
      reads this
    {
      Table(records, current, stopped)
    }

    constructor ()
      ensures View() == Table(map[], map[], false)
    {
      records, current, stopped := map[], map[], false;
    }

    method NoteAccept(id: ConnId, sameMachine: bool, deadline: Instant)
      modifies this
      ensures View() == old(View()).Accept(id, sameMachine, deadline)
    {
      if stopped {
        return;
      }
      records := records[id := NewRecord(sameMachine, deadline)];
    }

    method StopAdmission()
      modifies this
      ensures View() == old(View()).(stopped := true)
    {
      stopped := true;
    }

    method NotePaired(id: ConnId, device: Device, deadline: Instant) returns (paired: bool)
      modifies this
      ensures (View(), paired) == old(View()).Pair(id, device, deadline)
    {
      if stopped || id !in records {
        return false;
      }
      var record := records[id];
      if record.phase != Phase.Accepted || record.device.Some? {
        return false;
      }
      record := record.(device := Some(device));
      record := record.(phase := Phase.Paired);
      record := record.(deadline := deadline);
      records := records[id := record];
      return true;
    }

    method NoteAwaitingOwnerConfirmation(id: ConnId, deadline: Instant)
      modifies this
      ensures View() == old(View()).AwaitOwner(id, deadline)
    {
      if id !in records || records[id].awaitingOwner {
        return;
      }
      records := records[id := records[id].(awaitingOwner := true, deadline := deadline)];
    }

    method PreauthExpired(id: ConnId, now: Instant) returns (expired: bool)
      ensures expired <==> id in records && records[id].phase.PreAuth() && now > records[id].deadline
    {
      if id !in records {
        return false;
      }
      return records[id].phase.PreAuth() && now > records[id].deadline;
    }

    method NoteChallenged(id: ConnId, bind: Option<Device>, terms: string, nonce: string)
      returns (outcome: ChallengeOutcome)
      modifies this
      ensures (View(), outcome) == old(View()).Challenge(id, bind, terms, nonce)
    {
      if stopped || id !in records {
        return ChallengeOutcome.Unknown;
      }
      var record := records[id];
      match record.phase {
        case Accepted =>
          if bind.None? {
            return ChallengeOutcome.WrongPhase;
          }
          record := record.(device := bind);
        case Paired =>
          if bind.Some? && record.device != bind {
            return ChallengeOutcome.WrongPhase;
          }
        case Superseded => return ChallengeOutcome.Superseded;
        case _ => return ChallengeOutcome.WrongPhase;
      }
      record := record.(phase := Phase.Challenged);
      record := record.(terms := Some(terms));
      record := record.(nonce := Some(nonce));
      records := records[id := record];
      return ChallengeOutcome.Challenged;
    }

    method TakeNonce(id: ConnId) returns (admission: NonceAdmission)
      modifies this
      ensures (View(), admission) == old(View()).TakeNonce(id)
    {
      if stopped {
        return NonceAdmission.WrongPhase;
      }
      if id !in records {
        return NonceAdmission.Unknown;
      }
      match records[id].phase {
        case Challenged =>
          var nonce := records[id].nonce;
          if nonce.None? {
            return Missing;
          }
          records := records[id := records[id].(nonce := None)];
          return Nonce(nonce.value);
        case Superseded => return NonceAdmission.Superseded;
        case _ => return NonceAdmission.WrongPhase;
      }
    }

    method InstallAuthenticated(id: ConnId) returns (outcome: InstallOutcome)
      modifies this
      ensures (View(), outcome) == old(View()).Install(id)
    {
      if stopped {
        return InstallOutcome.WrongPhase;
      }
      if id !in records {
        return InstallOutcome.Unknown;
      }
      var record := records[id];
      match record.phase {
        case Challenged =>
        case Superseded => return InstallOutcome.Superseded;
        case _ => return InstallOutcome.WrongPhase;
      }
      if record.device.None? {
        return InstallOutcome.WrongPhase;
      }
      var device := record.device.value;
      var previous := if device in current then Some(current[device]) else None;
      records := records[id := record.(phase := Phase.Authenticated)];
      current := current[device := id];
      var superseded := None;
      if previous.Some? && previous.value != id && previous.value in records
         && records[previous.value].phase == Phase.Authenticated {
        records := records[previous.value := records[previous.value].(phase := Phase.Superseded)];
        superseded := previous;
      }
      return Installed(superseded);
    }

    method NoteAuthFailed(id: ConnId)
      modifies this
      ensures View() == old(View()).AuthFailed(id)
    {
      if id in records && records[id].phase == Phase.Challenged {
        records := records[id := records[id].(phase := Phase.Closed)];
      }
    }

    method LiveFor(id: ConnId, envelope: Envelope) returns (decision: LiveDecision)
      modifies this
      ensures (View(), decision) == old(View()).Live(id, envelope)
    {
      if stopped || id !in records {
        return Invalid;
      }
      var record := records[id];
      if envelope.message in record.seen {
        return Duplicate;
      }
      var seen := record.seen + [envelope.message];
      while |seen| > SEEN_MESSAGE_CAP
        invariant seen == LastOf(record.seen + [envelope.message], |seen|)
        invariant |seen| >= Min(SEEN_MESSAGE_CAP, |record.seen| + 1)
      {
        seen := seen[1..];
      }
      record := record.(seen := seen);
      if record.incarnation.Some? && record.incarnation.value != envelope.incarnation {
        records := records[id := record];
        return Invalid;
      }
      record := record.(incarnation := Some(envelope.incarnation));
      records := records[id := record];
      var client;
      if record.device.Some? {
        if envelope.device != record.device {
          return Invalid;
        }
        client := ByDevice(record.device.value);
      } else {
        client := ByIncarnation(envelope.incarnation);
      }
      var authed := View().CurrentAuthenticated(id, record.phase, record.device);
      return Ready(LiveInput(client, record.sameMachine, record.device, authed, id, record.terms, record.phase));
    }

    method NoteClosed(id: ConnId) returns (device: Option<Device>, fallback: bool)
      modifies this
      ensures (View(), device, fallback) == old(View()).Close(id)
    {
      if id !in records {
        return None, false;
      }
      device := records[id].device;
      records := records - {id};
      if device.None? {
        return None, false;
      }
      fallback := false;
      if device.value in current && current[device.value] == id {
        current := current - {device.value};
        fallback := true;
      }
    }

    /** Whether `with_current_connection` runs its commit closure. */
    method CommitsFor(id: ConnId) returns (runs: bool)
      ensures runs == View().IsCurrent(id)
    {
      if id !in records {
        return false;
      }
      return View().CurrentAuthenticated(id, records[id].phase, records[id].device);
    }
  }
}
