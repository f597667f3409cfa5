/** The Host's first-party control seat (`host_control.rs`): confirmation
    requests and sessions under a changing GUI seat. Each method of the seat is
    one lock section; the callers' sequences of sections are separate steps, so
    the seat may change between any two of them. */
module ControlSeat {
  import opened Prelude

  const CONTROL_SESSION_TTL: nat := 120
  const MAX_PENDING_REQUESTS: nat := 64
  const MAX_SETTLED_REQUESTS: nat := 256
  /** 63 others still pending, 255 settled ones kept, and the new request. */
  const MAX_STORED_REQUESTS: nat := 319

  type RequestId = nat
  type SessionId = nat
  type Instant = nat

  datatype RequestState =
    | AwaitingOwnerConfirmation
    | ConfirmationUnavailable
    | Rejected
    | Applied(outcome: string)
    | OutcomeUnavailable

  datatype Request = Request(state: RequestState, order: u64) {
    predicate Pending() { state.AwaitingOwnerConfirmation? }
  }

  datatype PendingOp =
    | DeviceApprove(pending: string)
    | CredentialPut(provider: string, name: string, mutation: string, secret: Option<string>)
    | DeletionConfirm(request: string)

  datatype Session = Session(nonce: string, generation: u64, deadline: Instant, request: RequestId, pending: PendingOp)

  datatype MintReply = Challenge(session: SessionId, generation: u64, nonce: string) | DeniedByBoundary | Unavailable

  type Requests = map<RequestId, Request>
  type Sessions = map<SessionId, Session>

  function Awaiting(requests: Requests): set<RequestId> {
    set r | r in requests && requests[r].Pending()
  }

  function Settled(requests: Requests): set<RequestId> {
    set r | r in requests && !requests[r].Pending()
  }

  function Targets(sessions: Sessions): set<RequestId> {
    set s | s in sessions :: sessions[s].request
  }

  /** The stored requests among `ids` get the given state. */
  function Mark(requests: Requests, ids: set<RequestId>, state: RequestState): Requests {
    map r | r in requests :: if r in ids then requests[r].(state := state) else requests[r]
  }

  /** The outcome of the retirement loop: below the limit nothing happens; from
      the limit on, settled requests go until one fewer than the limit is left,
      and none of those that go is younger than one that stays. */
  ghost predicate Retired(before: Requests, after: Requests) {
    && (forall r :: r in after ==> r in before && after[r] == before[r])
    && Awaiting(after) == Awaiting(before)
    && |Settled(after)| == Min(|Settled(before)|, MAX_SETTLED_REQUESTS - 1)
    && (forall gone, kept :: gone in Settled(before) && gone !in after && kept in Settled(after) ==>
          before[gone].order <= before[kept].order)
  }

  // --------------------------------------------------- the seat as a value

  datatype Seat = Seat(
    holder: Option<u64>, nextGeneration: u64, sessions: Sessions, requests: Requests, nextSeq: u64, outbound: bool) {

    function Invalidated(): Seat {
      this.(sessions := map[], requests := Mark(requests, Targets(sessions), ConfirmationUnavailable))
    }

    function SeatSpawned(): Seat {
      var generation := SaturatingAdd(nextGeneration, 1);
      Invalidated().(holder := Some(generation), nextGeneration := generation, outbound := true)
    }

    function SeatClosed(generation: u64): Seat {
      if holder == Some(generation) then Invalidated().(holder := None, outbound := false) else this
    }

    function Expired(now: Instant): Sessions {
      map s | s in sessions && sessions[s].deadline <= now :: sessions[s]
    }

    function SettleExpired(now: Instant): Seat {
      this.(sessions := sessions - Expired(now).Keys, requests := Mark(requests, Targets(Expired(now)), Rejected))
    }

    /** Settles one session if it has expired. */
    function SettleOne(s: SessionId, now: Instant): Seat {
      if s in Expired(now)
      then this.(sessions := sessions - {s}, requests := Mark(requests, {sessions[s].request}, Rejected))
      else this
    }

    /** The part of `accept_request` after retirement. */
    function Stored(id: RequestId): Seat {
      var state := if holder.Some? then AwaitingOwnerConfirmation else ConfirmationUnavailable;
      this.(requests := requests[id := Request(state, nextSeq)], nextSeq := SaturatingAdd(nextSeq, 1))
    }

    function Mint(id: RequestId, s: SessionId, nonce: string, pending: PendingOp, now: Instant,
                  delivers: bool): (Seat, MintReply) {
      if holder.None? then (this.(requests := Mark(requests, {id}, ConfirmationUnavailable)), DeniedByBoundary)
      else if outbound && delivers then
        var session := Session(nonce, holder.value, now + CONTROL_SESSION_TTL, id, pending);
        (this.(sessions := sessions[s := session]), Challenge(s, holder.value, nonce))
      else (this.(sessions := sessions - {s}, requests := Mark(requests, {id}, ConfirmationUnavailable)), Unavailable)
    }

    predicate Presents(s: SessionId, nonce: string) {
      s in sessions && sessions[s].nonce == nonce
    }

    function Take(s: SessionId, nonce: string, now: Instant): (Seat, Option<(RequestId, PendingOp)>) {
      if s in Expired(now) then (SettleOne(s, now), None)
      else if Presents(s, nonce) && Some(sessions[s].generation) == holder then
        (this.(sessions := sessions - {s}), Some((sessions[s].request, sessions[s].pending)))
      else (this, None)
    }

    function Reject(s: SessionId, nonce: string, now: Instant): (Seat, Option<RequestId>) {
      if s in Expired(now) then (SettleOne(s, now), None)
      else if Presents(s, nonce) then (this.(sessions := sessions - {s}), Some(sessions[s].request))
      else (this, None)
    }

    function Stage(s: SessionId, nonce: string, target: string, secret: string, now: Instant): (Seat, bool) {
      if s in Expired(now) then (SettleOne(s, now), false)
      else if !Presents(s, nonce) || Some(sessions[s].generation) != holder then (this, false)
      else
        match sessions[s].pending
        case CredentialPut(provider, name, mutation, _) =>
          if provider + ":" + name == target
          then
            var staged := sessions[s].(pending := CredentialPut(provider, name, mutation, Some(secret)));
            (this.(sessions := sessions[s := staged]), true)
          else (this, false)
        case _ => (this, false)
    }

    function Settle(id: RequestId, state: RequestState): Seat {
      this.(requests := Mark(requests, {id}, state))
    }
  }

  /** `accept_request`: refused at 64 pending requests, otherwise stored after
      the expiry sweep and the retirement loop. */
  ghost predicate Accepts(seat: Seat, id: RequestId, now: Instant, after: Seat, reply: Option<RequestState>) {
    var swept := seat.SettleExpired(now);
    if |Awaiting(swept.requests)| >= MAX_PENDING_REQUESTS then after == swept && reply == None
    else exists kept :: Retired(swept.requests, kept) && after == swept.(requests := kept).Stored(id) &&
                        id in after.requests && reply == Some(after.requests[id].state)
  }

  // ------------------------------------------- steps of the seat's callers

  datatype Event =
    | Spawn
    | CloseSeat(generation: u64)
    | Accept(id: RequestId, now: Instant)
    | Mint(id: RequestId, session: SessionId, nonce: string, pending: PendingOp, now: Instant, delivers: bool)
    | Complete(session: SessionId, nonce: string, now: Instant)
    | Executed(id: RequestId, outcome: Option<string>)
    | Reject(session: SessionId, nonce: string, now: Instant)
    | MarkRejected(id: RequestId)
    | Stage(session: SessionId, nonce: string, target: string, secret: string, now: Instant)
    | Query(id: RequestId, now: Instant)

  /** The seat and where its callers stand: requests accepted but not minted,
      taken and executing, or rejected but not yet marked; and the ids used. */
  datatype World = World(
    seat: Seat, minting: set<RequestId>, executing: set<RequestId>, rejecting: set<RequestId>,
    usedRequests: set<RequestId>, usedSessions: set<SessionId>)

  const EMPTY_WORLD := World(Seat(None, 0, map[], map[], 0, false), {}, {}, {}, {}, {})

  /** One step: ids are fresh, a request is minted once after it was accepted,
      and only the caller that took a session settles its request. */
  ghost predicate Step(w: World, e: Event, next: World) {
    match e
    case Spawn => next == w.(seat := w.seat.SeatSpawned())
    case CloseSeat(generation) => next == w.(seat := w.seat.SeatClosed(generation))
    case Accept(id, now) =>
      && id !in w.usedRequests
      && next == w.(seat := next.seat, usedRequests := w.usedRequests + {id},
                    minting := if id in next.seat.requests && next.seat.requests[id].Pending() then w.minting + {id}
                        else w.minting)
      && exists reply :: Accepts(w.seat, id, now, next.seat, reply)
    case Mint(id, s, nonce, pending, now, delivers) =>
      && id in w.minting && s !in w.usedSessions
      && next == w.(seat := w.seat.Mint(id, s, nonce, pending, now, delivers).0,
                    minting := w.minting - {id}, usedSessions := w.usedSessions + {s})
    case Complete(s, nonce, now) =>
      var (seat, taken) := w.seat.Take(s, nonce, now);
      next == w.(seat := seat, executing := if taken.Some? then w.executing + {taken.value.0} else w.executing)
    case Executed(id, outcome) =>
      && id in w.executing
      && next == w.(seat := w.seat.Settle(id, if outcome.Some? then Applied(outcome.value) else OutcomeUnavailable),
                    executing := w.executing - {id})
    case Reject(s, nonce, now) =>
      var (seat, request) := w.seat.Reject(s, nonce, now);
      next == w.(seat := seat, rejecting := if request.Some? then w.rejecting + {request.value} else w.rejecting)
    case MarkRejected(id) =>
      id in w.rejecting && next == w.(seat := w.seat.Settle(id, Rejected), rejecting := w.rejecting - {id})
    case Stage(s, nonce, target, secret, now) => next == w.(seat := w.seat.Stage(s, nonce, target, secret, now).0)
    case Query(_, now) => next == w.(seat := w.seat.SettleExpired(now))
  }

  ghost predicate IsRun(worlds: seq<World>, events: seq<Event>) {
    && |worlds| == |events| + 1
    && worlds[0] == EMPTY_WORLD
    && (forall i :: 0 <= i < |events| ==> Step(worlds[i], events[i], worlds[i + 1]))
  }

  // --------------------------------------------------------- the invariant

  /** Live sessions carry the current generation and point to distinct
      requests that still await the Owner. */
  ghost predicate SessionsBound(seat: Seat) {
    && (forall s :: s in seat.sessions ==>
          && seat.holder == Some(seat.sessions[s].generation)
          && seat.sessions[s].request in Awaiting(seat.requests))
    && (forall s, t ::
          s in seat.sessions && t in seat.sessions && seat.sessions[s].request == seat.sessions[t].request ==> s == t)
  }

  /** Every pending request has at most one owner: its session or one caller. */
  ghost predicate OneOwner(w: World) {
    && w.minting + w.executing + w.rejecting <= Awaiting(w.seat.requests)
    && w.minting !! w.executing && w.minting !! w.rejecting && w.executing !! w.rejecting
    && (w.minting + w.executing + w.rejecting) !! Targets(w.seat.sessions)
  }

  ghost predicate Inv(w: World) {
    && SessionsBound(w.seat)
    && OneOwner(w)
    && w.seat.requests.Keys <= w.usedRequests
    && w.seat.sessions.Keys <= w.usedSessions
    && |Awaiting(w.seat.requests)| <= MAX_PENDING_REQUESTS
    && |w.seat.requests| <= MAX_STORED_REQUESTS
  }

  lemma MarkedSets(requests: Requests, ids: set<RequestId>, state: RequestState)
    requires !state.AwaitingOwnerConfirmation?
    ensures Mark(requests, ids, state).Keys == requests.Keys
    ensures Awaiting(Mark(requests, ids, state)) == Awaiting(requests) - ids
    ensures |Awaiting(Mark(requests, ids, state))| <= |Awaiting(requests)|
    ensures |Mark(requests, ids, state)| == |requests|
  {
    var marked := Mark(requests, ids, state);
    assert marked.Keys == requests.Keys;
    assert |marked| == |marked.Keys|;
    assert Awaiting(marked) == Awaiting(requests) - ids;
    SubsetCardinality(Awaiting(marked), Awaiting(requests));
  }

  lemma FewerTargets(sessions: Sessions, fewer: Sessions)
    requires forall s :: s in fewer ==> s in sessions && fewer[s].request == sessions[s].request
    ensures Targets(fewer) <= Targets(sessions)
  {
  }

  /** The seat without the sessions `gone`, whose requests get the given state. */
  function WithoutSessions(seat: Seat, gone: set<SessionId>, state: RequestState): Seat {
    seat.(sessions := seat.sessions - gone, requests := Mark(seat.requests, RequestsOf(seat.sessions, gone), state))
  }

  lemma SettleOneMore(seat: Seat, done: set<SessionId>, s: SessionId, now: Instant)
    requires s in seat.Expired(now) && s !in done
    ensures WithoutSessions(seat, done, Rejected).SettleOne(s, now) == WithoutSessions(seat, done + {s}, Rejected)
  {
    assert RequestsOf(seat.sessions, done + {s}) == RequestsOf(seat.sessions, done) + {seat.sessions[s].request};
    assert seat.sessions - done - {s} == seat.sessions - (done + {s});
    MarkTwice(seat.requests, RequestsOf(seat.sessions, done), {seat.sessions[s].request}, Rejected);
  }

  lemma AllSettled(seat: Seat, due: set<SessionId>, now: Instant)
    requires forall s :: s in due <==> s in seat.sessions && seat.sessions[s].deadline <= now
    ensures due == seat.Expired(now).Keys
    ensures WithoutSessions(seat, {}, Rejected) == seat
    ensures WithoutSessions(seat, due, Rejected) == seat.SettleExpired(now)
  {
    var expired := seat.Expired(now);
    forall r | r in RequestsOf(seat.sessions, due) ensures r in Targets(expired) {
      var s :| s in seat.sessions && s in due && seat.sessions[s].request == r;
      assert s in expired && expired[s].request == r;
    }
    forall r | r in Targets(expired) ensures r in RequestsOf(seat.sessions, due) {
      var s :| s in expired && expired[s].request == r;
      assert s in due && seat.sessions[s].request == r;
    }
    assert RequestsOf(seat.sessions, due) == Targets(expired);
    assert seat.sessions - {} == seat.sessions && RequestsOf(seat.sessions, {}) == {};
  }

  lemma MarkTwice(requests: Requests, first: set<RequestId>, second: set<RequestId>, state: RequestState)
    ensures Mark(Mark(requests, first, state), second, state) == Mark(requests, first + second, state)
  {
  }

  function RequestsOf(sessions: Sessions, ids: set<SessionId>): set<RequestId> {
    set s | s in sessions && s in ids :: sessions[s].request
  }

  /** Sessions that go and the requests they point to leave together. */
  lemma DropSessions(w: World, gone: set<SessionId>, state: RequestState)
    requires Inv(w) && !state.AwaitingOwnerConfirmation?
    ensures Inv(w.(seat := WithoutSessions(w.seat, gone, state)))
  {
    var seat := w.seat;
    var dropped := RequestsOf(seat.sessions, gone);
    MarkedSets(seat.requests, dropped, state);
    FewerTargets(seat.sessions, seat.sessions - gone);
    assert dropped <= Targets(seat.sessions);
  }

  lemma SweepKeeps(w: World, now: Instant)
    requires Inv(w)
    ensures Inv(w.(seat := w.seat.SettleExpired(now)))
  {
    var gone := w.seat.Expired(now).Keys;
    assert RequestsOf(w.seat.sessions, gone) == Targets(w.seat.Expired(now));
    DropSessions(w, gone, Rejected);
  }

  lemma SettleOneKeeps(w: World, s: SessionId, now: Instant)
    requires Inv(w)
    ensures Inv(w.(seat := w.seat.SettleOne(s, now)))
  {
    if s in w.seat.Expired(now) {
      assert RequestsOf(w.seat.sessions, {s}) == {w.seat.sessions[s].request};
      DropSessions(w, {s}, Rejected);
    }
  }

  lemma InvalidateKeeps(w: World, seat: Seat)
    requires Inv(w) && seat == w.seat.Invalidated().(holder := seat.holder, nextGeneration := seat.nextGeneration,
                                                     outbound := seat.outbound)
    ensures Inv(w.(seat := seat))
  {
    var gone := w.seat.sessions.Keys;
    DropSessions(w, gone, ConfirmationUnavailable);
    assert w.seat.sessions - gone == map[];
    assert RequestsOf(w.seat.sessions, gone) == Targets(w.seat.sessions);
  }

  /** A caller that holds a request settles it. */
  lemma SettleKeeps(w: World, id: RequestId, state: RequestState)
    requires Inv(w) && !state.AwaitingOwnerConfirmation?
    requires id in w.minting + w.executing + w.rejecting
    ensures Inv(w.(seat := w.seat.Settle(id, state), minting := w.minting - {id},
                   executing := w.executing - {id}, rejecting := w.rejecting - {id}))
  {
    MarkedSets(w.seat.requests, {id}, state);
  }

  lemma Partition(requests: Requests)
    ensures |requests| == |Awaiting(requests)| + |Settled(requests)|
  {
    assert requests.Keys == Awaiting(requests) + Settled(requests);
    assert |requests| == |requests.Keys|;
  }

  /** The capacity argument: with fewer than 64 pending and at most 255 settled
      requests kept, storing one more stays within both limits. */
  lemma StoredCounts(kept: Requests, id: RequestId, request: Request)
    requires id !in kept && |Awaiting(kept)| < MAX_PENDING_REQUESTS && |Settled(kept)| < MAX_SETTLED_REQUESTS
    ensures var stored := kept[id := request];
            && stored.Keys == kept.Keys + {id}
            && Awaiting(stored) == (if request.Pending() then Awaiting(kept) + {id} else Awaiting(kept))
            && |Awaiting(stored)| <= MAX_PENDING_REQUESTS
            && |stored| <= MAX_STORED_REQUESTS
  {
    var stored := kept[id := request];
    Partition(kept);
    assert stored.Keys == kept.Keys + {id};
    assert |stored| == |stored.Keys|;
    assert |kept| == |kept.Keys|;
    assert Awaiting(stored) == if request.Pending() then Awaiting(kept) + {id} else Awaiting(kept);
  }

  lemma StoreKeepsSessions(w: World, kept: Requests, id: RequestId)
    requires Inv(w) && id !in w.usedRequests && Retired(w.seat.requests, kept)
    ensures SessionsBound(w.seat.(requests := kept).Stored(id))
  {
    var seat := w.seat.(requests := kept).Stored(id);
    forall s | s in seat.sessions ensures seat.sessions[s].request in Awaiting(seat.requests) {
      assert seat.sessions[s].request in Awaiting(kept);
    }
  }

  lemma StoreKeepsOwners(w: World, awaiting: set<RequestId>, id: RequestId)
    requires OneOwner(w) && SessionsBound(w.seat) && id !in Awaiting(w.seat.requests)
    requires w.minting + w.executing + w.rejecting <= awaiting
    ensures var minting := w.minting + {id};
            && minting + w.executing + w.rejecting <= awaiting + {id}
            && minting !! w.executing && minting !! w.rejecting && w.executing !! w.rejecting
            && (minting + w.executing + w.rejecting) !! Targets(w.seat.sessions)
  {
    assert id !in Targets(w.seat.sessions);
    assert id !in w.executing && id !in w.rejecting;
  }

  /** Storing an accepted request in a swept seat. */
  lemma StoreKeeps(w: World, kept: Requests, id: RequestId)
    requires Inv(w) && id !in w.usedRequests
    requires |Awaiting(w.seat.requests)| < MAX_PENDING_REQUESTS && Retired(w.seat.requests, kept)
    ensures var seat := w.seat.(requests := kept).Stored(id);
            Inv(w.(seat := seat, usedRequests := w.usedRequests + {id},
                   minting := if seat.requests[id].Pending() then w.minting + {id} else w.minting))
  {
    var seat := w.seat.(requests := kept).Stored(id);
    assert id !in kept && id !in Awaiting(w.seat.requests);
    assert kept.Keys <= w.seat.requests.Keys;
    StoredCounts(kept, id, seat.requests[id]);
    StoreKeepsSessions(w, kept, id);
    StoreKeepsOwners(w, Awaiting(kept), id);
  }

  lemma AcceptKeeps(w: World, id: RequestId, now: Instant, next: World, reply: Option<RequestState>)
    requires Inv(w) && Step(w, Accept(id, now), next) && Accepts(w.seat, id, now, next.seat, reply)
    ensures Inv(next)
  {
    SweepKeeps(w, now);
    var swept := w.seat.SettleExpired(now);
    MarkedSets(w.seat.requests, Targets(w.seat.Expired(now)), Rejected);
    if |Awaiting(swept.requests)| < MAX_PENDING_REQUESTS {
      var kept :| Retired(swept.requests, kept) && next.seat == swept.(requests := kept).Stored(id);
      StoreKeeps(w.(seat := swept), kept, id);
    } else {
      assert id !in next.seat.requests;
    }
  }

  lemma TargetAdded(sessions: Sessions, s: SessionId, session: Session)
    requires s !in sessions
    ensures Targets(sessions[s := session]) == Targets(sessions) + {session.request}
  {
    var more := sessions[s := session];
    assert more[s].request == session.request;
    forall r | r in Targets(sessions) ensures r in Targets(more) {
      var t :| t in sessions && sessions[t].request == r;
      assert more[t].request == r;
    }
  }

  /** The request a session is minted for passes from the caller to the session. */
  lemma MintedKeeps(w: World, id: RequestId, s: SessionId, session: Session)
    requires Inv(w) && id in w.minting && s !in w.usedSessions
    requires session.request == id && w.seat.holder == Some(session.generation)
    ensures Inv(w.(seat := w.seat.(sessions := w.seat.sessions[s := session]), minting := w.minting - {id},
                   usedSessions := w.usedSessions + {s}))
  {
    TargetAdded(w.seat.sessions, s, session);
    forall t | t in w.seat.sessions ensures w.seat.sessions[t].request != id {
      assert w.seat.sessions[t].request in Targets(w.seat.sessions);
    }
  }

  lemma MintKeeps(w: World, e: Event, next: World)
    requires Inv(w) && e.Mint? && Step(w, e, next)
    ensures Inv(next)
  {
    var (seat, reply) := w.seat.Mint(e.id, e.session, e.nonce, e.pending, e.now, e.delivers);
    if reply.Challenge? {
      MintedKeeps(w, e.id, e.session, seat.sessions[e.session]);
    } else {
      MintRefusedKeeps(w, e, next);
    }
  }

  lemma MintRefusedKeeps(w: World, e: Event, next: World)
    requires Inv(w) && e.Mint? && Step(w, e, next)
    requires !w.seat.Mint(e.id, e.session, e.nonce, e.pending, e.now, e.delivers).1.Challenge?
    ensures Inv(next)
  {
    SettleKeeps(w, e.id, ConfirmationUnavailable);
    assert w.seat.sessions - {e.session} == w.seat.sessions;
    assert w.executing - {e.id} == w.executing && w.rejecting - {e.id} == w.rejecting;
  }

  /** A session is taken: its request passes to the caller. */
  lemma HandOverKeeps(w: World, s: SessionId, executing: set<RequestId>, rejecting: set<RequestId>)
    requires Inv(w) && s in w.seat.sessions
    requires var r := w.seat.sessions[s].request;
             || (executing == w.executing + {r} && rejecting == w.rejecting)
             || (executing == w.executing && rejecting == w.rejecting + {r})
    ensures Inv(w.(seat := w.seat.(sessions := w.seat.sessions - {s}), executing := executing, rejecting := rejecting))
  {
    var r := w.seat.sessions[s].request;
    FewerTargets(w.seat.sessions, w.seat.sessions - {s});
    assert r in Targets(w.seat.sessions);
    assert r !in Targets(w.seat.sessions - {s});
  }

  lemma StageKeeps(w: World, e: Event)
    requires Inv(w) && e.Stage?
    ensures Inv(w.(seat := w.seat.Stage(e.session, e.nonce, e.target, e.secret, e.now).0))
  {
    SettleOneKeeps(w, e.session, e.now);
    var seat := w.seat.Stage(e.session, e.nonce, e.target, e.secret, e.now).0;
    if e.session !in w.seat.Expired(e.now) {
      FewerTargets(w.seat.sessions, seat.sessions);
    }
  }

  lemma InvKept(w: World, e: Event, next: World)
    requires Inv(w) && Step(w, e, next)
    ensures Inv(next)
  {
    match e
    case Spawn => InvalidateKeeps(w, next.seat);
    case CloseSeat(generation) =>
      if w.seat.holder == Some(generation) {
        InvalidateKeeps(w, next.seat);
      }
    case Accept(id, now) =>
      var reply :| Accepts(w.seat, id, now, next.seat, reply);
      AcceptKeeps(w, id, now, next, reply);
    case Mint(_, _, _, _, _, _) => MintKeeps(w, e, next);
    case Complete(s, nonce, now) =>
      SettleOneKeeps(w, s, now);
      if w.seat.Take(s, nonce, now).1.Some? {
        HandOverKeeps(w, s, next.executing, next.rejecting);
      }
    case Executed(id, outcome) =>
      SettleKeeps(w, id, if outcome.Some? then Applied(outcome.value) else OutcomeUnavailable);
      assert w.minting - {id} == w.minting && w.rejecting - {id} == w.rejecting;
    case Reject(s, nonce, now) =>
      SettleOneKeeps(w, s, now);
      if w.seat.Reject(s, nonce, now).1.Some? {
        HandOverKeeps(w, s, next.executing, next.rejecting);
      }
    case MarkRejected(id) =>
      SettleKeeps(w, id, Rejected);
      assert w.minting - {id} == w.minting && w.executing - {id} == w.executing;
    case Stage(_, _, _, _, _) => StageKeeps(w, e);
    case Query(_, now) => SweepKeeps(w, now);
  }

  lemma {:induction false} InvHolds(worlds: seq<World>, events: seq<Event>, i: nat)
    requires IsRun(worlds, events) && i < |worlds|
    ensures Inv(worlds[i])
  {
    if i == 0 {
      assert Awaiting(map[]) == {};
      assert Targets(map[]) == {};
    } else {
      InvHolds(worlds, events, i - 1);
      assert Step(worlds[i - 1], events[i - 1], worlds[i]);
      InvKept(worlds[i - 1], events[i - 1], worlds[i]);
    }
  }

  // ------------------------------------------------------- the main results

  /** In every reachable state the live sessions carry the current holder's
      generation and point to distinct requests still awaiting the Owner. */
  lemma SessionsAreSeatBound(worlds: seq<World>, events: seq<Event>, i: nat)
    requires IsRun(worlds, events) && i < |worlds|
    ensures SessionsBound(worlds[i].seat)
  {
    InvHolds(worlds, events, i);
  }

  /** Over all runs at most 64 requests await confirmation, at most 64 sessions
      exist and at most 319 requests are stored. */
  lemma CapacityHolds(worlds: seq<World>, events: seq<Event>, i: nat)
    requires IsRun(worlds, events) && i < |worlds|
    ensures |Awaiting(worlds[i].seat.requests)| <= 64
    ensures |worlds[i].seat.sessions| <= 64
    ensures |worlds[i].seat.requests| <= 319
  {
    InvHolds(worlds, events, i);
    var seat := worlds[i].seat;
    var target := map s | s in seat.sessions :: seat.sessions[s].request;
    InjectiveImage(seat.sessions.Keys, target, Awaiting(seat.requests));
    assert |seat.sessions.Keys| == |seat.sessions|;
  }

  /** A session leaves the seat in this step. */
  predicate Consumes(w: World, next: World, s: SessionId) {
    s in w.seat.sessions && s !in next.seat.sessions
  }

  lemma GoneStep(w: World, e: Event, next: World, s: SessionId)
    requires Step(w, e, next) && s in w.usedSessions && s !in w.seat.sessions
    ensures s in next.usedSessions && s !in next.seat.sessions
  {
  }

  lemma {:induction false} GoneStaysGone(worlds: seq<World>, events: seq<Event>, i: nat, j: nat, s: SessionId)
    requires IsRun(worlds, events) && i <= j < |worlds|
    requires s in worlds[i].usedSessions && s !in worlds[i].seat.sessions
    ensures s !in worlds[j].seat.sessions
    decreases j - i
  {
    if i < j {
      assert Step(worlds[i], events[i], worlds[i + 1]);
      GoneStep(worlds[i], events[i], worlds[i + 1], s);
      GoneStaysGone(worlds, events, i + 1, j, s);
    }
  }

  /** A confirmation is one-shot: each session is consumed at most once, whether
      by completion, rejection, expiry or a seat change. */
  lemma ConsumedOnce(worlds: seq<World>, events: seq<Event>, i: nat, j: nat, s: SessionId)
    requires IsRun(worlds, events) && i < j < |events|
    requires Consumes(worlds[i], worlds[i + 1], s)
    ensures !Consumes(worlds[j], worlds[j + 1], s)
  {
    InvHolds(worlds, events, i);
    assert Step(worlds[i], events[i], worlds[i + 1]);
    GoneStaysGone(worlds, events, i + 1, j, s);
  }

  /** Completion and rejection hand out a request exactly when they consume a
      live, unexpired session under its nonce, and never both. */
  lemma HandOutConsumes(w: World, next: World, s: SessionId, nonce: string, now: Instant)
    requires Inv(w)
    requires Step(w, Complete(s, nonce, now), next) || Step(w, Event.Reject(s, nonce, now), next)
    ensures next.executing + next.rejecting != w.executing + w.rejecting <==>
              s in w.seat.sessions && w.seat.sessions[s].deadline > now && w.seat.sessions[s].nonce == nonce
    ensures next.executing + next.rejecting != w.executing + w.rejecting ==> Consumes(w, next, s)
  {
    if s in w.seat.sessions {
      assert w.seat.sessions[s].request in Targets(w.seat.sessions);
    }
  }

  lemma SettledStepKeeps(w: World, e: Event, next: World, id: RequestId)
    requires Inv(w) && Step(w, e, next) && id in w.usedRequests
    ensures id in next.usedRequests
    ensures id !in w.seat.requests ==> id !in next.seat.requests
    ensures id in w.seat.requests && !w.seat.requests[id].Pending() ==>
              id !in next.seat.requests || next.seat.requests[id] == w.seat.requests[id]
  {
    forall s | s in w.seat.sessions ensures w.seat.sessions[s].request in Awaiting(w.seat.requests) {
    }
    if e.Accept? {
      var reply :| Accepts(w.seat, e.id, e.now, next.seat, reply);
    }
  }

  /** A settled request never changes again until it is retired, and a retired
      one never comes back. */
  lemma {:induction false} SettledIsFinal(worlds: seq<World>, events: seq<Event>, i: nat, j: nat, id: RequestId)
    requires IsRun(worlds, events) && i <= j < |worlds|
    requires id in worlds[i].usedRequests
    requires id in worlds[i].seat.requests ==> !worlds[i].seat.requests[id].Pending()
    ensures id in worlds[j].seat.requests ==>
              id in worlds[i].seat.requests && worlds[j].seat.requests[id] == worlds[i].seat.requests[id]
    decreases j - i
  {
    if i < j {
      InvHolds(worlds, events, i);
      assert Step(worlds[i], events[i], worlds[i + 1]);
      SettledStepKeeps(worlds[i], events[i], worlds[i + 1], id);
      SettledIsFinal(worlds, events, i + 1, j, id);
    }
  }

  // ----------------------------------------------- what the callers are told

  /** What an accepted request is told, once expired sessions are settled: it awaits
      the Owner exactly when someone is seated and fewer than 64 others do. */
  lemma AcceptAnswers(seat: Seat, id: RequestId, now: Instant, after: Seat, reply: Option<RequestState>)
    requires Accepts(seat, id, now, after, reply)
    ensures var crowded := |Awaiting(seat.SettleExpired(now).requests)| >= MAX_PENDING_REQUESTS;
            && (reply == None <==> crowded)
            && (reply == Some(AwaitingOwnerConfirmation) <==> !crowded && seat.holder.Some?)
            && (reply == Some(ConfirmationUnavailable) <==> !crowded && seat.holder.None?)
    ensures reply.Some? ==> id in after.requests && after.requests[id].state == reply.value
  {
  }

  /** The time an event looks at, if it looks at the clock. */
  function ClockOf(e: Event): Option<Instant> {
    match e
    case Accept(_, now) => Some(now)
    case Mint(_, _, _, _, now, _) => Some(now)
    case Complete(_, _, now) => Some(now)
    case Reject(_, _, now) => Some(now)
    case Stage(_, _, _, _, now) => Some(now)
    case Query(_, now) => Some(now)
    case _ => None
  }

  /** The event changes who is seated. */
  predicate ChangesSeat(seat: Seat, e: Event) {
    e.Spawn? || (e.CloseSeat? && seat.holder == Some(e.generation))
  }

  /** The event presents the session under its nonce to end it. */
  predicate Ends(e: Event, s: SessionId, nonce: string) {
    (e.Complete? || e.Reject?) && e.session == s && e.nonce == nonce
  }

  /** The operation once a secret has been staged for it. */
  function StagedBy(pending: PendingOp, e: Event, s: SessionId, nonce: string): PendingOp {
    if e.Stage? && e.session == s && e.nonce == nonce && pending.CredentialPut?
       && e.target == pending.provider + ":" + pending.name
    then CredentialPut(pending.provider, pending.name, pending.mutation, Some(e.secret))
    else pending
  }

  /** A session outlives every step that neither changes the seat, nor comes at its
      deadline or later, nor ends it; only staging changes its operation. */
  lemma SessionLives(w: World, e: Event, next: World, s: SessionId)
    requires Inv(w) && Step(w, e, next) && s in w.seat.sessions
    requires LetsLive(w.seat, e, s, w.seat.sessions[s].nonce, w.seat.sessions[s].deadline)
    ensures next.seat.holder == w.seat.holder && s in next.seat.sessions
    ensures var was, now := w.seat.sessions[s], next.seat.sessions[s];
            now == was.(pending := StagedBy(was.pending, e, s, was.nonce))
  {
  }

  ghost function PendingAt(events: seq<Event>, i: nat, j: nat, s: SessionId, nonce: string,
                           pending: PendingOp): PendingOp
    requires i <= j <= |events|
    decreases j
  {
    if i == j then pending else StagedBy(PendingAt(events, i, j - 1, s, nonce, pending), events[j - 1], s, nonce)
  }

  /** Between the events `i` and `j` nothing changes the seat, comes at `deadline` or
      later, or ends the session. */
  ghost predicate IsQuiet(worlds: seq<World>, events: seq<Event>, i: nat, j: nat,
                          s: SessionId, nonce: string, deadline: Instant)
    requires i <= j <= |events| < |worlds|
  {
    forall k :: i <= k < j ==> LetsLive(worlds[k].seat, events[k], s, nonce, deadline)
  }

  predicate LetsLive(seat: Seat, e: Event, s: SessionId, nonce: string, deadline: Instant) {
    && !ChangesSeat(seat, e) && !Ends(e, s, nonce)
    && (ClockOf(e).Some? ==> ClockOf(e).value < deadline)
  }

  /** The step `k` carries the session on, if it is there with its nonce and its
      deadline. */
  ghost predicate Carries(worlds: seq<World>, events: seq<Event>, k: nat, s: SessionId, nonce: string,
                          deadline: Instant)
    requires k < |events| < |worlds|
  {
    var before, after := worlds[k].seat, worlds[k + 1].seat;
    s in before.sessions && before.sessions[s].nonce == nonce && before.sessions[s].deadline == deadline ==>
      && after.holder == before.holder && s in after.sessions
      && after.sessions[s]
         == before.sessions[s].(pending := StagedBy(before.sessions[s].pending, events[k], s, nonce))
  }

  lemma SessionStep(worlds: seq<World>, events: seq<Event>, k: nat, s: SessionId, nonce: string, deadline: Instant)
    requires IsRun(worlds, events) && k < |events| && LetsLive(worlds[k].seat, events[k], s, nonce, deadline)
    ensures Carries(worlds, events, k, s, nonce, deadline)
  {
    var w := worlds[k];
    InvHolds(worlds, events, k);
    assert Step(w, events[k], worlds[k + 1]);
    if s in w.seat.sessions && w.seat.sessions[s].nonce == nonce && w.seat.sessions[s].deadline == deadline {
      SessionLives(w, events[k], worlds[k + 1], s);
    }
  }

  lemma {:induction false} CarriedOn(worlds: seq<World>, events: seq<Event>, i: nat, j: nat, s: SessionId)
    requires i <= j <= |events| < |worlds| && s in worlds[i].seat.sessions
    requires var x := worlds[i].seat.sessions[s];
             forall k: nat :: i <= k < j ==> Carries(worlds, events, k, s, x.nonce, x.deadline)
    ensures worlds[j].seat.holder == worlds[i].seat.holder && s in worlds[j].seat.sessions
    ensures var x := worlds[i].seat.sessions[s];
            worlds[j].seat.sessions[s] == x.(pending := PendingAt(events, i, j, s, x.nonce, x.pending))
    decreases j
  {
    if i < j {
      CarriedOn(worlds, events, i, j - 1, s);
      var x := worlds[i].seat.sessions[s];
      assert Carries(worlds, events, j - 1, s, x.nonce, x.deadline);
    }
  }

  lemma SessionStays(worlds: seq<World>, events: seq<Event>, i: nat, j: nat, s: SessionId)
    requires IsRun(worlds, events) && i <= j < |worlds| && s in worlds[i].seat.sessions
    requires IsQuiet(worlds, events, i, j, s, worlds[i].seat.sessions[s].nonce, worlds[i].seat.sessions[s].deadline)
    ensures worlds[j].seat.holder == worlds[i].seat.holder && s in worlds[j].seat.sessions
    ensures var x := worlds[i].seat.sessions[s];
            worlds[j].seat.sessions[s] == x.(pending := PendingAt(events, i, j, s, x.nonce, x.pending))
  {
    var x := worlds[i].seat.sessions[s];
    forall k: nat | i <= k < j ensures Carries(worlds, events, k, s, x.nonce, x.deadline) {
      SessionStep(worlds, events, k, s, x.nonce, x.deadline);
    }
    CarriedOn(worlds, events, i, j, s);
  }

  /** A channel to the seat is open exactly while someone is seated. */
  lemma {:induction false} OutboundIffSeated(worlds: seq<World>, events: seq<Event>, i: nat)
    requires IsRun(worlds, events) && i < |worlds|
    ensures worlds[i].seat.outbound <==> worlds[i].seat.holder.Some?
  {
    if i > 0 {
      OutboundIffSeated(worlds, events, i - 1);
      assert Step(worlds[i - 1], events[i - 1], worlds[i]);
    }
  }

  /** What minting is told: a challenge with the seat's generation and the nonce of
      the session, which runs for the time a control session has. */
  lemma MintAnswers(worlds: seq<World>, events: seq<Event>, i: nat)
    requires IsRun(worlds, events) && i < |events| && events[i].Mint?
    ensures var seat, e, next := worlds[i].seat, events[i], worlds[i + 1].seat;
            var reply := seat.Mint(e.id, e.session, e.nonce, e.pending, e.now, e.delivers).1;
            && (reply.DeniedByBoundary? <==> seat.holder.None?)
            && (reply.Unavailable? <==> seat.holder.Some? && !e.delivers)
            && (seat.holder.Some? && e.delivers ==>
                  && reply == Challenge(e.session, seat.holder.value, e.nonce) && e.session in next.sessions
                  && next.sessions[e.session]
                     == Session(e.nonce, seat.holder.value, e.now + CONTROL_SESSION_TTL, e.id, e.pending))
  {
    OutboundIffSeated(worlds, events, i);
    assert Step(worlds[i], events[i], worlds[i + 1]);
  }

  /** A request accepted while someone is seated, minted and delivered, and presented
      under the challenge's nonce before the deadline, with no change of the seat
      from its acceptance on, is handed out, with whatever was staged for it. */
  lemma AcceptedIsHandedOut(worlds: seq<World>, events: seq<Event>, h: nat, i: nat, j: nat)
    requires IsRun(worlds, events) && h < i < j < |events|
    requires events[h].Accept? && events[i].Mint? && events[j].Complete?
    requires events[i].id == events[h].id && events[i].delivers
    requires events[j].session == events[i].session && events[j].nonce == events[i].nonce
    requires events[j].now < events[i].now + CONTROL_SESSION_TTL
    requires worlds[h].seat.holder.Some?
    requires forall k :: h <= k <= i ==> !ChangesSeat(worlds[k].seat, events[k])
    requires IsQuiet(worlds, events, i + 1, j, events[i].session, events[i].nonce, events[i].now + CONTROL_SESSION_TTL)
    ensures var e := events[i];
            && worlds[j].seat.Take(e.session, e.nonce, events[j].now).1
               == Some((e.id, PendingAt(events, i + 1, j, e.session, e.nonce, e.pending)))
            && e.id in worlds[j + 1].executing
  {
    StaysSeated(worlds, events, h, i);
    MintAnswers(worlds, events, i);
    InvHolds(worlds, events, i + 1);
    SessionStays(worlds, events, i + 1, j, events[i].session);
    InvHolds(worlds, events, j);
    assert Step(worlds[j], events[j], worlds[j + 1]);
  }

  lemma {:induction false} StaysSeated(worlds: seq<World>, events: seq<Event>, h: nat, i: nat)
    requires IsRun(worlds, events) && h <= i < |worlds|
    requires forall k :: h <= k < i ==> !ChangesSeat(worlds[k].seat, events[k])
    ensures worlds[i].seat.holder == worlds[h].seat.holder
    decreases i
  {
    if h < i {
      StaysSeated(worlds, events, h, i - 1);
      assert Step(worlds[i - 1], events[i - 1], worlds[i]);
    }
  }

  /** A secret is taken exactly when a live, unexpired session for a credential is
      presented with its nonce under the seat's generation and names that credential;
      it then replaces whatever was staged and nothing else. */
  lemma StageAnswers(seat: Seat, s: SessionId, nonce: string, target: string, secret: string, now: Instant)
    ensures var (next, ok) := seat.Stage(s, nonce, target, secret, now);
            && (ok <==> && s in seat.sessions && now < seat.sessions[s].deadline
                        && seat.sessions[s].nonce == nonce && Some(seat.sessions[s].generation) == seat.holder
                        && var pending := seat.sessions[s].pending;
                           pending.CredentialPut? && pending.provider + ":" + pending.name == target)
            && (ok ==> && s in next.sessions && next.sessions - {s} == seat.sessions - {s}
                       && next.requests == seat.requests && next.holder == seat.holder
                       && var was := seat.sessions[s];
                          next.sessions[s] == was.(pending := was.pending.(secret := Some(secret))))
  {
  }

  /** The session that points to a request is due at the time the event looks at,
      and the event settles it. */
  predicate Expires(w: World, e: Event, id: RequestId) {
    exists s :: s in w.seat.sessions && w.seat.sessions[s].request == id && ClockOf(e).Some?
      && w.seat.sessions[s].deadline <= ClockOf(e).value
      && (e.Accept? || e.Query? || ((e.Complete? || e.Reject? || e.Stage?) && e.session == s))
  }

  /** The state a pending request has after an event, and why: its outcome when its
      execution ends, rejected when it is rejected or its session expires,
      unavailable when the seat changes under its session or its challenge cannot be
      delivered; otherwise it goes on awaiting the Owner. */
  function StateAfter(w: World, e: Event, id: RequestId): RequestState {
    if e.Executed? && e.id == id then (if e.outcome.Some? then Applied(e.outcome.value) else OutcomeUnavailable)
    else if (e.MarkRejected? && e.id == id) || Expires(w, e, id) then Rejected
    else if ChangesSeat(w.seat, e) && id in Targets(w.seat.sessions) then ConfirmationUnavailable
    else if e.Mint? && e.id == id && !(w.seat.holder.Some? && w.seat.outbound && e.delivers)
    then ConfirmationUnavailable
    else AwaitingOwnerConfirmation
  }

  /** So it is after every step, unless accepting another request retires it at once
      because its session has just expired. */
  lemma WhySettled(w: World, e: Event, next: World, id: RequestId)
    requires Inv(w) && Step(w, e, next) && id in w.seat.requests && w.seat.requests[id].Pending()
    ensures id !in next.seat.requests ==> e.Accept? && Expires(w, e, id)
    ensures id in next.seat.requests ==>
              next.seat.requests[id] == w.seat.requests[id].(state := StateAfter(w, e, id))
  {
    match e
    case Accept(_, now) => AcceptSettles(w, e, next, id);
    case Query(_, now) => SweepSettles(w, e, now, id);
    case Complete(s, _, now) => OneExpires(w, e, s, now, id);
    case Reject(s, _, now) => OneExpires(w, e, s, now, id);
    case Stage(s, _, _, _, now) => OneExpires(w, e, s, now, id);
    case _ =>
  }

  /** One presented session that has expired settles its own request only. */
  lemma OneExpires(w: World, e: Event, s: SessionId, now: Instant, id: RequestId)
    requires Inv(w) && (e.Complete? || e.Reject? || e.Stage?) && e.session == s && ClockOf(e) == Some(now)
    ensures Expires(w, e, id) <==> s in w.seat.Expired(now) && w.seat.sessions[s].request == id
  {
  }

  lemma AcceptSettles(w: World, e: Event, next: World, id: RequestId)
    requires Inv(w) && e.Accept? && Step(w, e, next) && id in w.seat.requests && w.seat.requests[id].Pending()
    ensures id !in next.seat.requests ==> Expires(w, e, id)
    ensures id in next.seat.requests ==>
              next.seat.requests[id] == w.seat.requests[id].(state := StateAfter(w, e, id))
  {
    SweepSettles(w, e, e.now, id);
    var reply :| Accepts(w.seat, e.id, e.now, next.seat, reply);
    StoredFate(w.seat.SettleExpired(e.now), e.id, next.seat, reply, id);
  }

  /** A request that still awaits the Owner is not retired, and none changes. */
  lemma StoredFate(swept: Seat, accepted: RequestId, after: Seat, reply: Option<RequestState>, id: RequestId)
    requires id in swept.requests && id != accepted
    requires reply.None? ==> after == swept
    requires reply.Some? ==>
               exists kept :: Retired(swept.requests, kept) && after == swept.(requests := kept).Stored(accepted)
    ensures swept.requests[id].Pending() ==> id in after.requests
    ensures id in after.requests ==> after.requests[id] == swept.requests[id]
  {
    if reply.Some? {
      var kept :| Retired(swept.requests, kept) && after == swept.(requests := kept).Stored(accepted);
      assert id in Awaiting(swept.requests) ==> id in Awaiting(kept);
    }
  }

  lemma SweepSettles(w: World, e: Event, now: Instant, id: RequestId)
    requires Inv(w) && (e.Accept? || e.Query?) && ClockOf(e) == Some(now)
    requires id in w.seat.requests && w.seat.requests[id].Pending()
    ensures var swept := w.seat.SettleExpired(now);
            id in swept.requests && swept.requests[id] == w.seat.requests[id].(state := StateAfter(w, e, id))
  {
    var expired := w.seat.Expired(now);
    if s :| s in w.seat.sessions && w.seat.sessions[s].request == id && w.seat.sessions[s].deadline <= now {
      assert s in expired && expired[s].request == id;
      assert Expires(w, e, id);
    }
  }

  /** Every stored request is older than the next one. */
  ghost predicate IsOrdered(seat: Seat) {
    forall r :: r in seat.requests ==> seat.requests[r].order < seat.nextSeq || seat.nextSeq == U64_MAX
  }

  lemma OrderKept(w: World, e: Event, next: World)
    requires IsOrdered(w.seat) && Step(w, e, next)
    ensures IsOrdered(next.seat)
  {
  }

  lemma {:induction false} OrderHolds(worlds: seq<World>, events: seq<Event>, i: nat)
    requires IsRun(worlds, events) && i < |worlds|
    ensures IsOrdered(worlds[i].seat)
  {
    if i > 0 {
      OrderHolds(worlds, events, i - 1);
      assert Step(worlds[i - 1], events[i - 1], worlds[i]);
      OrderKept(worlds[i - 1], events[i - 1], worlds[i]);
    }
  }

  /** An accepted request is ordered behind every request stored before it. */
  lemma AcceptedIsLast(worlds: seq<World>, events: seq<Event>, i: nat, r: RequestId)
    requires IsRun(worlds, events) && i < |events| && events[i].Accept?
    requires events[i].id in worlds[i + 1].seat.requests && r in worlds[i].seat.requests
    ensures var order := worlds[i + 1].seat.requests[events[i].id].order;
            worlds[i].seat.requests[r].order < order || order == U64_MAX
  {
    OrderHolds(worlds, events, i);
    InvHolds(worlds, events, i);
    assert Step(worlds[i], events[i], worlds[i + 1]);
  }

  /** One more than the position of the event that accepted the request. */
  ghost function AcceptedAt(events: seq<Event>, i: nat, id: RequestId): (at: nat)
    requires i <= |events|
    ensures at <= i
  {
    if i == 0 then 0
    else if events[i - 1].Accept? && events[i - 1].id == id then i
    else AcceptedAt(events, i - 1, id)
  }

  ghost predicate SameOrder(before: Seat, after: Seat, r: RequestId) {
    r in before.requests && r in after.requests && after.requests[r].order == before.requests[r].order
  }

  lemma OthersKeepOrder(w: World, e: Event, next: World, r: RequestId)
    requires !e.Accept? && Step(w, e, next) && r in next.seat.requests
    ensures SameOrder(w.seat, next.seat, r)
  {
  }

  lemma AcceptOrder(seat: Seat, id: RequestId, now: Instant, after: Seat, reply: Option<RequestState>, r: RequestId)
    requires Accepts(seat, id, now, after, reply) && r in after.requests
    ensures r == id || SameOrder(seat, after, r)
    ensures id !in seat.requests && r == id ==> after.requests[r].order == seat.nextSeq
  {
  }

  /** Where the orders of a step's requests come from. */
  lemma OrderFrom(w: World, e: Event, next: World, r: RequestId)
    requires w.seat.requests.Keys <= w.usedRequests && Step(w, e, next) && r in next.seat.requests
    ensures if e.Accept? && r == e.id then next.seat.requests[r].order == w.seat.nextSeq
            else SameOrder(w.seat, next.seat, r)
  {
    if e.Accept? {
      var reply :| Accepts(w.seat, e.id, e.now, next.seat, reply);
      AcceptOrder(w.seat, e.id, e.now, next.seat, reply, r);
    } else {
      OthersKeepOrder(w, e, next, r);
    }
  }

  /** Of two requests the one with the lower order is not the newer one. */
  lemma OrderOfTwo(w: World, e: Event, next: World, r: RequestId, q: RequestId)
    requires w.seat.requests.Keys <= w.usedRequests && IsOrdered(w.seat) && Step(w, e, next) && r != q
    requires r in next.seat.requests && q in next.seat.requests
    requires next.seat.requests[r].order <= next.seat.requests[q].order < U64_MAX
    ensures !(e.Accept? && e.id == r) && SameOrder(w.seat, next.seat, r)
    ensures (e.Accept? && e.id == q) || SameOrder(w.seat, next.seat, q)
  {
    OrderFrom(w, e, next, r);
    OrderFrom(w, e, next, q);
  }

  /** `r` stands no later than `q`. */
  ghost predicate InOrder(seat: Seat, r: RequestId, q: RequestId) {
    r in seat.requests && q in seat.requests && seat.requests[r].order <= seat.requests[q].order < U64_MAX
  }

  /** The step `k` finds the two in this order, or accepts the later one. */
  ghost predicate KeepsOrder(worlds: seq<World>, events: seq<Event>, k: nat, r: RequestId, q: RequestId)
    requires k < |events| < |worlds|
  {
    InOrder(worlds[k + 1].seat, r, q) ==>
      && !(events[k].Accept? && events[k].id == r)
      && ((events[k].Accept? && events[k].id == q) || InOrder(worlds[k].seat, r, q))
  }

  lemma OrderAt(worlds: seq<World>, events: seq<Event>, k: nat, r: RequestId, q: RequestId)
    requires IsRun(worlds, events) && k < |events| && r != q
    ensures KeepsOrder(worlds, events, k, r, q)
  {
    if InOrder(worlds[k + 1].seat, r, q) {
      StepAt(worlds, events, k);
      OrderOfTwo(worlds[k], events[k], worlds[k + 1], r, q);
    }
  }

  lemma {:induction false} OrderIsAge(worlds: seq<World>, events: seq<Event>, i: nat, r: RequestId, q: RequestId)
    requires i <= |events| < |worlds| && worlds[0] == EMPTY_WORLD && InOrder(worlds[i].seat, r, q)
    requires forall k: nat :: k < i ==> KeepsOrder(worlds, events, k, r, q)
    ensures AcceptedAt(events, i, r) < AcceptedAt(events, i, q)
  {
    assert i > 0;
    assert KeepsOrder(worlds, events, i - 1, r, q);
    if !(events[i - 1].Accept? && events[i - 1].id == q) {
      OrderIsAge(worlds, events, i - 1, r, q);
    }
  }

  lemma OlderIsFirst(worlds: seq<World>, events: seq<Event>, i: nat, r: RequestId, q: RequestId)
    requires IsRun(worlds, events) && i < |worlds| && r != q && InOrder(worlds[i].seat, r, q)
    ensures AcceptedAt(events, i, r) < AcceptedAt(events, i, q)
  {
    forall k: nat | k < i ensures KeepsOrder(worlds, events, k, r, q) {
      OrderAt(worlds, events, k, r, q);
    }
    OrderIsAge(worlds, events, i, r, q);
  }

  lemma StepAt(worlds: seq<World>, events: seq<Event>, k: nat)
    requires IsRun(worlds, events) && k < |events|
    ensures Step(worlds[k], events[k], worlds[k + 1])
    ensures worlds[k].seat.requests.Keys <= worlds[k].usedRequests && IsOrdered(worlds[k].seat)
  {
    InvHolds(worlds, events, k);
    OrderHolds(worlds, events, k);
  }

  lemma RetiredOrder(w: World, e: Event, next: World, gone: RequestId, kept: RequestId)
    requires Inv(w) && e.Accept? && Step(w, e, next)
    requires gone in w.seat.requests && gone !in next.seat.requests
    requires kept in next.seat.requests && kept != e.id && !next.seat.requests[kept].Pending()
    ensures kept in w.seat.requests && w.seat.requests[gone].order <= w.seat.requests[kept].order
  {
    OrderFrom(w, e, next, kept);
    var swept := w.seat.SettleExpired(e.now);
    assert gone in swept.requests && swept.requests[gone].order == w.seat.requests[gone].order;
    var requests :| Retired(swept.requests, requests) && next.seat == swept.(requests := requests).Stored(e.id);
    assert gone !in requests && kept in Settled(requests);
    assert gone in Settled(swept.requests) by {
      assert gone !in Awaiting(requests);
    }
  }

  /** Over runs the retirement loop removes the settled requests in the order in which
      they were accepted: one that goes was accepted before every settled one that
      stays, until the counter saturates. */
  lemma RetiredInOrder(worlds: seq<World>, events: seq<Event>, i: nat, gone: RequestId, kept: RequestId)
    requires IsRun(worlds, events) && i < |events| && events[i].Accept?
    requires gone in worlds[i].seat.requests && gone !in worlds[i + 1].seat.requests
    requires kept in worlds[i + 1].seat.requests && kept != events[i].id && !worlds[i + 1].seat.requests[kept].Pending()
    ensures AcceptedAt(events, i, gone) < AcceptedAt(events, i, kept)
            || worlds[i + 1].seat.requests[kept].order == U64_MAX
  {
    InvHolds(worlds, events, i);
    assert Step(worlds[i], events[i], worlds[i + 1]);
    RetiredOrder(worlds[i], events[i], worlds[i + 1], gone, kept);
    OrderFrom(worlds[i], events[i], worlds[i + 1], kept);
    if worlds[i].seat.requests[kept].order < U64_MAX {
      OlderIsFirst(worlds, events, i, gone, kept);
    }
  }

  // ------------------------------------------------------------ generations

  lemma GenerationStep(w: World, e: Event, next: World)
    requires Step(w, e, next)
    ensures w.seat.nextGeneration <= next.seat.nextGeneration
    ensures next.seat.holder in {None, w.seat.holder, Some(next.seat.nextGeneration)}
    ensures next.seat.holder == w.seat.holder != None ==> w.seat.nextGeneration == next.seat.nextGeneration || e.Spawn?
    ensures e.Spawn? ==> next.seat.holder == Some(next.seat.nextGeneration)
  {
  }

  lemma GenerationAt(worlds: seq<World>, events: seq<Event>, k: nat)
    requires IsRun(worlds, events) && k < |events|
    ensures var before, after := worlds[k].seat, worlds[k + 1].seat;
            && before.nextGeneration <= after.nextGeneration
            && (before.holder in {None, Some(before.nextGeneration)} ==>
                  after.holder in {None, Some(after.nextGeneration)})
  {
    assert Step(worlds[k], events[k], worlds[k + 1]);
    GenerationStep(worlds[k], events[k], worlds[k + 1]);
  }

  lemma {:induction false} GenerationsGrow(worlds: seq<World>, events: seq<Event>, i: nat, j: nat)
    requires IsRun(worlds, events) && i <= j < |worlds|
    ensures worlds[i].seat.nextGeneration <= worlds[j].seat.nextGeneration
    decreases j
  {
    if i < j {
      GenerationsGrow(worlds, events, i, j - 1);
      GenerationAt(worlds, events, j - 1);
    }
  }

  lemma {:induction false} HolderIsLatest(worlds: seq<World>, events: seq<Event>, i: nat)
    requires IsRun(worlds, events) && i < |worlds|
    ensures worlds[i].seat.holder in {None, Some(worlds[i].seat.nextGeneration)}
  {
    if i > 0 {
      HolderIsLatest(worlds, events, i - 1);
      GenerationAt(worlds, events, i - 1);
    }
  }

  /** Every spawned GUI holds the seat under a generation of its own, until the counter
      saturates: once another one has been spawned, the end of an earlier one changes
      nothing, whenever it is noticed. */
  lemma EarlierGuiEnds(worlds: seq<World>, events: seq<Event>, h: nat, i: nat, j: nat)
    requires IsRun(worlds, events) && h < i < j < |worlds|
    requires events[h].Spawn? && events[i].Spawn? && worlds[h + 1].seat.nextGeneration < U64_MAX
    ensures var generation := worlds[h + 1].seat.nextGeneration;
            && worlds[h + 1].seat.holder == Some(generation)
            && worlds[i + 1].seat.holder != worlds[h + 1].seat.holder
            && worlds[j].seat.SeatClosed(generation) == worlds[j].seat
  {
    assert Step(worlds[h], events[h], worlds[h + 1]);
    assert Step(worlds[i], events[i], worlds[i + 1]);
    GenerationsGrow(worlds, events, h + 1, i);
    GenerationsGrow(worlds, events, i + 1, j);
    HolderIsLatest(worlds, events, j);
  }

  // ------------------------------------------------------- the shared object

  lemma OldestExists(requests: Requests, ids: set<RequestId>)
    requires ids != {} && ids <= requests.Keys
    ensures exists o :: o in ids && forall r :: r in ids ==> requests[o].order <= requests[r].order
    decreases |ids|
  {
    var r :| r in ids;
    var others := ids - {r};
    if others != {} {
      OldestExists(requests, others);
      var o :| o in others && forall q :: q in others ==> requests[o].order <= requests[q].order;
      var oldest := if requests[r].order <= requests[o].order then r else o;
      assert forall q :: q in ids ==> requests[oldest].order <= requests[q].order;
    } else {
      assert ids == {r};
    }
  }

  class FirstPartyControlSeat {
    var holder: Option<u64>
    var nextGeneration: u64
    var sessions: Sessions
    var requests: Requests
    var nextSeq: u64
    var outbound: bool

    function View(): Seat
      reads this
    {
      Seat(holder, nextGeneration, sessions, requests, nextSeq, outbound)
    }

    constructor ()
      ensures View() == EMPTY_WORLD.seat
    {
      holder, nextGeneration, sessions, requests, nextSeq, outbound := None, 0, map[], map[], 0, false;
    }

    /** `requests.get_mut(id)` followed by an assignment of the state. */
    method SetState(id: RequestId, state: RequestState)
      modifies this`requests
      ensures requests == Mark(old(requests), {id}, state)
    {
      if id in requests {
        requests := requests[id := requests[id].(state := state)];
      }
    }

    method InvalidateSessions(state: RequestState)
      modifies this`sessions, this`requests
      ensures sessions == map[] && requests == Mark(old(requests), Targets(old(sessions)), state)
    {
      var ids := Targets(sessions);
      sessions := map[];
      ghost var done: set<RequestId> := {};
      ghost var before := requests;
      assert requests == Mark(before, {}, state);
      var left := ids;
      while left != {}
        invariant done + left == ids && sessions == map[]
        invariant requests == Mark(before, done, state)
        decreases |left|
      {
        var id :| id in left;
        SetState(id, state);
        left, done := left - {id}, done + {id};
      }
    }

    method SeatSpawnedGui() returns (generation: u64)
      modifies this
      ensures View() == old(View()).SeatSpawned() && generation == nextGeneration
    {
      nextGeneration := SaturatingAdd(nextGeneration, 1);
      generation := nextGeneration;
      holder := Some(generation);
      InvalidateSessions(ConfirmationUnavailable);
      outbound := true;
    }

    method SeatClosed(generation: u64)
      modifies this
      ensures View() == old(View()).SeatClosed(generation)
    {
      if holder == Some(generation) {
        holder := None;
        InvalidateSessions(ConfirmationUnavailable);
        outbound := false;
      }
    }

    method SettleExpiredSession(s: SessionId, now: Instant) returns (expired: bool)
      modifies this`sessions, this`requests
      ensures View() == old(View()).SettleOne(s, now) && expired == (s in old(View()).Expired(now))
    {
      if s !in sessions || sessions[s].deadline > now {
        return false;
      }
      var id := sessions[s].request;
      sessions := sessions - {s};
      SetState(id, Rejected);
      return true;
    }

    method SettleExpiredSessions(now: Instant)
      modifies this`sessions, this`requests
      ensures View() == old(View()).SettleExpired(now)
    {
      ghost var before := View();
      var due := set s | s in sessions && sessions[s].deadline <= now;
      AllSettled(before, due, now);
      var left := due;
      ghost var done: set<SessionId> := {};
      while left != {}
        invariant left <= due && done == due - left
        invariant View() == WithoutSessions(before, done, Rejected)
        decreases |left|
      {
        var s :| s in left;
        SettleOneMore(before, done, s, now);
        var expired := SettleExpiredSession(s, now);
        left, done := left - {s}, done + {s};
      }
      assert done == due;
    }

    method RetireSettledRequests()
      modifies this`requests
      ensures Retired(old(requests), requests)
    {
      ghost var before := requests;
      var settled := Settled(requests);
      while |settled| >= MAX_SETTLED_REQUESTS
        invariant settled == Settled(requests)
        invariant forall r :: r in requests ==> r in before && requests[r] == before[r]
        invariant Awaiting(requests) == Awaiting(before)
        invariant requests == before || |settled| >= MAX_SETTLED_REQUESTS - 1
        invariant |settled| <= |Settled(before)|
        invariant forall gone, kept :: gone in Settled(before) && gone !in requests && kept in settled ==>
                    before[gone].order <= before[kept].order
        decreases |settled|
      {
        OldestExists(requests, settled);
        var oldest :| oldest in settled && forall r :: r in settled ==> requests[oldest].order <= requests[r].order;
        requests := requests - {oldest};
        assert Settled(requests) == settled - {oldest};
        settled := Settled(requests);
      }
    }

    method AcceptRequest(id: RequestId, now: Instant) returns (reply: Option<RequestState>)
      modifies this
      ensures Accepts(old(View()), id, now, View(), reply)
    {
      ghost var before := View();
      SettleExpiredSessions(now);
      var pending := |Awaiting(requests)|;
      if pending >= MAX_PENDING_REQUESTS {
        return None;
      }
      RetireSettledRequests();
      ghost var kept := requests;
      var state := if holder.Some? then AwaitingOwnerConfirmation else ConfirmationUnavailable;
      var number := nextSeq;
      nextSeq := SaturatingAdd(nextSeq, 1);
      requests := requests[id := Request(state, number)];
      assert View() == before.SettleExpired(now).(requests := kept).Stored(id);
      return Some(state);
    }

    method RequestStateOf(id: RequestId, now: Instant) returns (state: Option<RequestState>)
      modifies this`sessions, this`requests
      ensures View() == old(View()).SettleExpired(now)
      ensures state == if id in requests then Some(requests[id].state) else None
    {
      SettleExpiredSessions(now);
      state := if id in requests then Some(requests[id].state) else None;
    }

    method Mint(id: RequestId, s: SessionId, nonce: string, pending: PendingOp, now: Instant, delivers: bool)
      returns (reply: MintReply)
      modifies this`sessions, this`requests
      ensures (View(), reply) == old(View()).Mint(id, s, nonce, pending, now, delivers)
    {
      if holder.None? {
        SetState(id, ConfirmationUnavailable);
        return DeniedByBoundary;
      }
      ghost var before := sessions;
      sessions := sessions[s := Session(nonce, holder.value, now + CONTROL_SESSION_TTL, id, pending)];
      if !(outbound && delivers) {
        sessions := sessions - {s};
        assert sessions == before - {s};
        SetState(id, ConfirmationUnavailable);
        return Unavailable;
      }
      return Challenge(s, holder.value, nonce);
    }

    method Take(s: SessionId, nonce: string, now: Instant) returns (taken: Option<(RequestId, PendingOp)>)
      modifies this`sessions, this`requests
      ensures (View(), taken) == old(View()).Take(s, nonce, now)
    {
      var expired := SettleExpiredSession(s, now);
      if expired {
        return None;
      }
      if s !in sessions || sessions[s].nonce != nonce || Some(sessions[s].generation) != holder {
        return None;
      }
      var session := sessions[s];
      sessions := sessions - {s};
      return Some((session.request, session.pending));
    }

    method Reject(s: SessionId, nonce: string, now: Instant) returns (request: Option<RequestId>)
      modifies this`sessions, this`requests
      ensures (View(), request) == old(View()).Reject(s, nonce, now)
    {
      var expired := SettleExpiredSession(s, now);
      if expired {
        return None;
      }
      if s !in sessions || sessions[s].nonce != nonce {
        return None;
      }
      var session := sessions[s];
      sessions := sessions - {s};
      return Some(session.request);
    }

    method StageCredentialSecret(s: SessionId, nonce: string, target: string, secret: string, now: Instant)
      returns (staged: bool)
      modifies this`sessions, this`requests
      ensures (View(), staged) == old(View()).Stage(s, nonce, target, secret, now)
    {
      var expired := SettleExpiredSession(s, now);
      if expired || s !in sessions {
        return false;
      }
      var session := sessions[s];
      if session.nonce != nonce || Some(session.generation) != holder {
        return false;
      }
      match session.pending {
        case CredentialPut(provider, name, mutation, _) =>
          if provider + ":" + name != target {
            return false;
          }
          sessions := sessions[s := session.(pending := CredentialPut(provider, name, mutation, Some(secret)))];
          return true;
        case _ => return false;
      }
    }
  }
}
