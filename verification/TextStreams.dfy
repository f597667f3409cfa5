/** The text stream of one dialogue turn (`dialogue.rs`): frames are published
    while the premises they rest on may go stale at any await. */
module TextStreams {
  import opened Prelude

  datatype Frame = Accept | Open | Delta(number: nat, text: string) | Final(number: nat) | Close(completed: bool)

  /** A frame handed to the client's channel, and when. */
  datatype Sent = Sent(frame: Frame, at: nat)

  /** What the checks answer at each moment: whether the connection is the
      current one, whether the durable premise of the presentation holds, whether
      the channel has room and whether the delivery evidence is committed. */
  datatype Env = Env(connection: nat -> bool, durable: nat -> bool, room: nat -> bool, evidence: nat -> bool) {
    /** A connection that is no longer current never becomes current again. */
    ghost predicate SupersessionIsFinal() {
      forall t, u :: t <= u && connection(u) ==> connection(t)
    }
  }

  datatype Flow = Continue | Abort(reason: Reason)

  datatype Reason = PremiseStale | ClientGone | EvidenceLost

  // ------------------------------------------------------------- one delta

  datatype Check = Connection | Durable | Room | Evidence

  /** What a delta must pass, in this order; the last check is made by the send
      itself. */
  const CHECKS := [Connection, Durable, Room, Durable, Connection, Evidence, Durable, Connection, Connection]

  /** How many moments a push takes. */
  const SLOT: nat := 9

  predicate Holds(env: Env, check: Check, t: nat) {
    match check
    case Connection => env.connection(t)
    case Durable => env.durable(t)
    case Room => env.room(t)
    case Evidence => env.evidence(t)
  }

  /** The first of the checks from `k` on that fails for a push at `t`. */
  function FirstFailing(env: Env, t: nat, k: nat): nat
    requires k <= SLOT
    decreases SLOT - k
  {
    if k == SLOT || !Holds(env, CHECKS[k], t + k) then k else FirstFailing(env, t, k + 1)
  }

  predicate Published(env: Env, t: nat) {
    FirstFailing(env, t, 0) == SLOT
  }

  /** The push goes on when it published or found the connection superseded, and
      aborts on any other failing check. A stream that is not open, or not on the
      current connection from the start, still aborts on a stale premise. */
  function FlowOf(env: Env, isOpen: bool, t: nat): Flow {
    var failing := if isOpen then FirstFailing(env, t, 0) else 0;
    if failing == 0 then (if env.durable(t + 1) then Continue else Abort(PremiseStale))
    else if failing >= SLOT then Continue
    else
      match CHECKS[failing]
      case Connection => Continue
      case Durable => Abort(PremiseStale)
      case Room => Abort(ClientGone)
      case Evidence => Abort(EvidenceLost)
  }

  lemma {:induction false} FailingChecks(env: Env, t: nat, k: nat)
    requires k <= SLOT
    ensures k <= FirstFailing(env, t, k) <= SLOT
    ensures forall i :: k <= i < FirstFailing(env, t, k) ==> Holds(env, CHECKS[i], t + i)
    ensures FirstFailing(env, t, k) < SLOT ==> !Holds(env, CHECKS[FirstFailing(env, t, k)], t + FirstFailing(env, t, k))
    decreases SLOT - k
  {
    if k < SLOT && Holds(env, CHECKS[k], t + k) {
      FailingChecks(env, t, k + 1);
    }
  }

  /** The checks before the n-th, one by one. */
  predicate Passed(env: Env, t: nat, n: nat) {
    && (n > 0 ==> env.connection(t)) && (n > 1 ==> env.durable(t + 1)) && (n > 2 ==> env.room(t + 2))
    && (n > 3 ==> env.durable(t + 3)) && (n > 4 ==> env.connection(t + 4)) && (n > 5 ==> env.evidence(t + 5))
    && (n > 6 ==> env.durable(t + 6)) && (n > 7 ==> env.connection(t + 7)) && (n > 8 ==> env.connection(t + 8))
  }

  lemma PassedHold(env: Env, t: nat, n: nat)
    requires n <= SLOT
    ensures Passed(env, t, n) <==> forall i :: 0 <= i < n ==> Holds(env, CHECKS[i], t + i)
  {
    if forall i :: 0 <= i < n ==> Holds(env, CHECKS[i], t + i) {
      assert forall i :: 0 <= i < n ==> Holds(env, CHECKS[i], t + i);
      assert n > 0 ==> Holds(env, CHECKS[0], t + 0);
      assert n > 1 ==> Holds(env, CHECKS[1], t + 1);
      assert n > 2 ==> Holds(env, CHECKS[2], t + 2);
      assert n > 3 ==> Holds(env, CHECKS[3], t + 3);
      assert n > 4 ==> Holds(env, CHECKS[4], t + 4);
      assert n > 5 ==> Holds(env, CHECKS[5], t + 5);
      assert n > 6 ==> Holds(env, CHECKS[6], t + 6);
      assert n > 7 ==> Holds(env, CHECKS[7], t + 7);
      assert n > 8 ==> Holds(env, CHECKS[8], t + 8);
    }
  }

  /** Naming the failing check. */
  lemma FailsFirst(env: Env, t: nat, n: nat)
    requires n <= SLOT && Passed(env, t, n)
    requires n < SLOT ==> !Holds(env, CHECKS[n], t + n)
    ensures FirstFailing(env, t, 0) == n
  {
    PassedHold(env, t, n);
    FailingChecks(env, t, 0);
  }

  /** A push publishes exactly when each of its nine moments answers yes. */
  lemma PublishedIff(env: Env, t: nat)
    ensures Published(env, t)
            <==> && env.connection(t) && env.durable(t + 1) && env.room(t + 2) && env.durable(t + 3)
                 && env.connection(t + 4) && env.evidence(t + 5) && env.durable(t + 6)
                 && env.connection(t + 7) && env.connection(t + 8)
  {
    PassedHold(env, t, SLOT);
    FailingChecks(env, t, 0);
  }

  /** Whether the push gets as far as committing its evidence. */
  predicate ReachesEvidence(env: Env, t: nat) {
    env.connection(t) && env.durable(t + 1) && env.room(t + 2) && env.durable(t + 3) && env.connection(t + 4)
  }

  /** Each answer of a push, said of the moments: the client is gone when a current
      stream with a current premise finds no room, the evidence is lost when nothing
      failed before it, and the premise is stale when one of its three moments finds
      it so; a stream that is not open, or superseded from the start, has only the
      first of them. Every other push goes on. */
  lemma FlowIff(env: Env, isOpen: bool, t: nat)
    ensures var live := isOpen && env.connection(t);
            && (FlowOf(env, isOpen, t) == Abort(ClientGone) <==> live && env.durable(t + 1) && !env.room(t + 2))
            && (FlowOf(env, isOpen, t) == Abort(EvidenceLost)
                <==> isOpen && ReachesEvidence(env, t) && !env.evidence(t + 5))
            && (FlowOf(env, isOpen, t) == Abort(PremiseStale)
                <==> || !env.durable(t + 1)
                     || (live && env.room(t + 2) && !env.durable(t + 3))
                     || (isOpen && ReachesEvidence(env, t) && env.evidence(t + 5) && !env.durable(t + 6)))
  {
    if isOpen {
      FailsAt(env, t);
    }
  }

  lemma FailsAt(env: Env, t: nat)
    ensures FirstFailing(env, t, 0)
            == if !env.connection(t) then 0
               else if !env.durable(t + 1) then 1
               else if !env.room(t + 2) then 2
               else if !env.durable(t + 3) then 3
               else if !env.connection(t + 4) then 4
               else if !env.evidence(t + 5) then 5
               else if !env.durable(t + 6) then 6
               else if !env.connection(t + 7) then 7
               else if !env.connection(t + 8) then 8
               else 9
  {
    for n := 0 to SLOT
      invariant Passed(env, t, n)
    {
      if !Holds(env, CHECKS[n], t + n) {
        FailsFirst(env, t, n);
        return;
      }
    }
    FailsFirst(env, t, SLOT);
  }

  // ------------------------------------------------------ a run of pushes

  /** The delta frames of the first `n` pushes: those that passed every check,
      numbered as they come. */
  function Deltas(env: Env, texts: seq<string>, t: nat, n: nat): seq<Sent>
    requires n <= |texts|
  {
    if n == 0 then []
    else
      var earlier, slot := Deltas(env, texts, t, n - 1), t + SLOT * (n - 1);
      if Published(env, slot) then earlier + [Sent(Delta(|earlier|, texts[n - 1]), slot + SLOT - 1)] else earlier
  }

  function Interruption(env: Env, t: nat): seq<Sent> {
    if env.room(t) then [Sent(Close(false), t)] else []
  }

  /** The end of a stream at `t`, behind `n` deltas. */
  function EndingOf(env: Env, n: nat, t: nat, completed: bool): seq<Sent> {
    if !completed then Interruption(env, t)
    else if !env.connection(t) || !env.durable(t + 1) then Interruption(env, t + 2)
    else if !env.room(t + 2) || !env.connection(t + 3) then Interruption(env, t + 4)
    else [Sent(Final(n), t + 3)] + if env.room(t + 4) && env.connection(t + 5) then [Sent(Close(true), t + 5)]
         else Interruption(env, t + 6)
  }

  /** What is sent at the end: nothing more, an interruption, or the final frame
      with or without a close. */
  predicate IsEnding(env: Env, ending: seq<Sent>, n: nat, t: nat) {
    || ending == []
    || (|ending| == 1 && t <= ending[0].at && ending[0].frame == Close(false))
    || (1 <= |ending| <= 2 && t <= ending[0].at && ending[0].frame == Final(n) && env.connection(ending[0].at)
        && (|ending| == 2 ==> ending[1].frame.Close? && ending[0].at < ending[1].at
                              && (ending[1].frame.completed ==> env.connection(ending[1].at))))
  }

  class StreamGate {
    const env: Env
    var isOpen: bool
    var next: nat
    var sent: seq<Sent>
    var now: nat

    constructor (env: Env, isOpen: bool, sent: seq<Sent>, now: nat)
      ensures this.env == env && this.isOpen == isOpen && next == 0 && this.sent == sent && this.now == now
    {
      this.env, this.isOpen, next, this.sent, this.now := env, isOpen, 0, sent, now;
    }

    method PushDelta(text: string) returns (flow: Flow)
      modifies this`next, this`sent, this`now
      ensures flow == FlowOf(env, isOpen, old(now))
      ensures now == old(now) + SLOT
      ensures if isOpen && Published(env, old(now))
              then sent == old(sent) + [Sent(Delta(old(next), text), old(now) + SLOT - 1)] && next == old(next) + 1
              else sent == old(sent) && next == old(next)
    {
      var t := now;
      now := now + SLOT;
      if !isOpen || !env.connection(t) {
        if isOpen { FailsFirst(env, t, 0); }
        if !env.durable(t + 1) { return Abort(PremiseStale); }
        return Continue;
      }
      if !env.durable(t + 1) { FailsFirst(env, t, 1); return Abort(PremiseStale); }
      var frame := Delta(next, text);
      if !env.room(t + 2) { FailsFirst(env, t, 2); return Abort(ClientGone); }
      if !env.durable(t + 3) { FailsFirst(env, t, 3); return Abort(PremiseStale); }
      if !env.connection(t + 4) { FailsFirst(env, t, 4); return Continue; }
      if !env.evidence(t + 5) { FailsFirst(env, t, 5); return Abort(EvidenceLost); }
      if !env.durable(t + 6) { FailsFirst(env, t, 6); return Abort(PremiseStale); }
      if !env.connection(t + 7) { FailsFirst(env, t, 7); return Continue; }
      if !env.connection(t + 8) { FailsFirst(env, t, 8); return Continue; }
      FailsFirst(env, t, 9);
      sent := sent + [Sent(frame, t + 8)];
      next := next + 1;
      flow := Continue;
    }

    /** Reserves room, then sends under the connection's lock. */
    method PublishCurrent(frame: Frame) returns (published: bool)
      modifies this`sent, this`now
      ensures published <==> isOpen && env.room(old(now)) && env.connection(old(now) + 1)
      ensures sent == if published then old(sent) + [Sent(frame, old(now) + 1)] else old(sent)
      ensures now == old(now) + 2
    {
      now := now + 2;
      if !isOpen { return false; }
      if !env.room(now - 2) { return false; }
      published := env.connection(now - 1);
      if published { sent := sent + [Sent(frame, now - 1)]; }
    }

    method Interrupt()
      modifies this`sent, this`now
      ensures sent == if isOpen && env.room(old(now)) then old(sent) + [Sent(Close(false), old(now))] else old(sent)
      ensures now == old(now) + 1
    {
      if isOpen && env.room(now) {
        sent := sent + [Sent(Close(false), now)];
      }
      now := now + 1;
    }

    /** Completes the stream while the connection and the premise still hold, and
        interrupts it otherwise. */
    method Finish()
      modifies this`sent, this`now
      ensures sent == old(sent) + if isOpen then EndingOf(env, next, old(now), true) else []
    {
      var current := env.connection(now) && env.durable(now + 1);
      now := now + 2;
      if !current {
        Interrupt();
        return;
      }
      var published := PublishCurrent(Final(next));
      if !published {
        Interrupt();
        return;
      }
      published := PublishCurrent(Close(true));
      if !published {
        Interrupt();
      }
    }
  }

  /** Everything a turn sends on its stream. */
  datatype Transcript = Transcript(opening: seq<Sent>, deltas: seq<Sent>, ending: seq<Sent>) {
    function All(): seq<Sent> {
      opening + deltas + ending
    }
  }

  /** When the pushes start. */
  const STREAM_START: nat := 5

  /** What a turn may send. */
  predicate IsTranscript(env: Env, script: Transcript, texts: seq<string>) {
    || (script.deltas == script.ending == [] &&
        (script.opening == [] || (script.opening == [Sent(Accept, 0)] && env.connection(0))))
    || (script.opening == [Sent(Accept, 0), Sent(Open, 0)] && env.connection(0)
        && script.deltas == [] && |script.ending| <= 1
        && (script.ending != [] ==> script.ending[0].frame == Close(false)))
    || (script.opening == [Sent(Accept, 0), Sent(Open, 0)] && env.connection(0)
        && script.deltas == Deltas(env, texts, STREAM_START, |texts|)
        && IsEnding(env, script.ending, |script.deltas|, STREAM_START + SLOT * |texts|))
  }

  /** Whether the stream was opened: the acceptance and the opening were both
      handed over under the connection's lock. */
  predicate Opens(env: Env, installed: bool) {
    installed && env.connection(0) && env.room(1) && env.room(2)
  }

  /** The room ran out while the stream was being opened. */
  predicate OpeningFails(env: Env, installed: bool) {
    installed && env.connection(0) && !(env.room(1) && env.room(2))
  }

  function OpeningOf(env: Env, installed: bool): seq<Sent> {
    if Opens(env, installed) then [Sent(Accept, 0), Sent(Open, 0)]
    else if OpeningFails(env, installed) && env.room(1) then [Sent(Accept, 0)]
    else []
  }

  function TranscriptOf(env: Env, installed: bool, consent: bool, texts: seq<string>, completed: bool): Transcript {
    var opens := Opens(env, installed);
    var opening := OpeningOf(env, installed);
    if OpeningFails(env, installed) then Transcript(opening, [], [])
    else if !consent then
      Transcript(opening, [], if opens && env.connection(3) && env.room(4) then [Sent(Close(false), 3)] else [])
    else
      var deltas := Streamed(env, opens, texts, |texts|);
      Transcript(opening, deltas, if opens then EndingOf(env, |deltas|, STREAM_START + SLOT * |texts|, completed)
                 else [])
  }

  /** The part of `submit_text` that owns the stream: `installed` says that the
      round was recorded, `consent` that the consent is still the admitted one,
      `completed` how the turn ended. */
  method SubmitText(env: Env, installed: bool, consent: bool, texts: seq<string>, completed: bool)
    returns (sent: seq<Sent>, flows: seq<Flow>)
    ensures sent == TranscriptOf(env, installed, consent, texts, completed).All()
    ensures flows == if consent && !OpeningFails(env, installed) then Flows(env, Opens(env, installed), |texts|) else []
  {
    var isOpen;
    sent, isOpen := OpenStream(env, installed);
    if isOpen.None? { return sent, []; }
    if !consent {
      if isOpen.value && env.connection(3) && env.room(4) {
        sent := sent + [Sent(Close(false), 3)];
      }
      return sent, [];
    }
    sent, flows := StreamFrom(env, isOpen.value, sent, texts, completed);
  }

  /** Sends the opening frames: whether the stream is open, or none when the room
      ran out. */
  method OpenStream(env: Env, installed: bool) returns (sent: seq<Sent>, isOpen: Option<bool>)
    ensures sent == OpeningOf(env, installed)
    ensures isOpen == if OpeningFails(env, installed) then None else Some(Opens(env, installed))
  {
    if !installed || !env.connection(0) { return [], Some(false); }
    if !env.room(1) { return [], None; }
    if !env.room(2) { return [Sent(Accept, 0)], None; }
    return [Sent(Accept, 0), Sent(Open, 0)], Some(true);
  }

  /** The part of the turn behind the opening frames. */
  method StreamFrom(env: Env, isOpen: bool, opening: seq<Sent>, texts: seq<string>, completed: bool)
    returns (sent: seq<Sent>, flows: seq<Flow>)
    ensures var deltas := Streamed(env, isOpen, texts, |texts|);
            sent == opening + deltas + if isOpen
                then EndingOf(env, |deltas|, STREAM_START + SLOT * |texts|, completed) else []
    ensures flows == Flows(env, isOpen, |texts|)
  {
    var gate := new StreamGate(env, isOpen, opening, STREAM_START);
    flows := StreamTurn(gate, texts, completed);
    sent := gate.sent;
  }

  /** The frames of the pushes, once `n` of them are done. */
  function Streamed(env: Env, isOpen: bool, texts: seq<string>, n: nat): seq<Sent>
    requires n <= |texts|
  {
    if isOpen then Deltas(env, texts, STREAM_START, n) else []
  }

  /** What the first `n` pushes answer. */
  function Flows(env: Env, isOpen: bool, n: nat): seq<Flow> {
    if n == 0 then [] else Flows(env, isOpen, n - 1) + [FlowOf(env, isOpen, STREAM_START + SLOT * (n - 1))]
  }

  /** Every push has its own nine moments, one push behind the other. */
  lemma {:induction false} FlowsInOrder(env: Env, isOpen: bool, n: nat)
    ensures |Flows(env, isOpen, n)| == n
    ensures forall i :: 0 <= i < n ==> Flows(env, isOpen, n)[i] == FlowOf(env, isOpen, STREAM_START + SLOT * i)
  {
    if n > 0 {
      FlowsInOrder(env, isOpen, n - 1);
    }
  }

  /** The pushes of the turn. */
  method PushAll(gate: StreamGate, texts: seq<string>) returns (flows: seq<Flow>)
    requires gate.next == 0 && gate.now == STREAM_START
    modifies gate
    ensures gate.isOpen == old(gate.isOpen) && gate.now == STREAM_START + SLOT * |texts|
    ensures gate.sent == old(gate.sent) + Streamed(gate.env, gate.isOpen, texts, |texts|)
    ensures gate.isOpen ==> gate.next == |Streamed(gate.env, gate.isOpen, texts, |texts|)|
    ensures flows == Flows(gate.env, gate.isOpen, |texts|)
  {
    flows := [];
    for i := 0 to |texts|
      invariant gate.isOpen == old(gate.isOpen)
      invariant HasPushed(gate, old(gate.sent), texts, i) && flows == Flows(gate.env, gate.isOpen, i)
    {
      var flow := PushNext(gate, old(gate.sent), texts, i);
      flows := flows + [flow];
    }
  }

  /** The gate has pushed the first `n` texts behind the frames `opening`. */
  ghost predicate HasPushed(gate: StreamGate, opening: seq<Sent>, texts: seq<string>, n: nat)
    requires n <= |texts|
    reads gate
  {
    var deltas := Streamed(gate.env, gate.isOpen, texts, n);
    gate.now == STREAM_START + SLOT * n && gate.sent == opening + deltas && (gate.isOpen ==> gate.next == |deltas|)
  }

  method PushNext(gate: StreamGate, ghost opening: seq<Sent>, texts: seq<string>, i: nat) returns (flow: Flow)
    requires i < |texts| && HasPushed(gate, opening, texts, i)
    modifies gate
    ensures gate.isOpen == old(gate.isOpen) && HasPushed(gate, opening, texts, i + 1)
    ensures flow == FlowOf(gate.env, gate.isOpen, STREAM_START + SLOT * i)
  {
    StreamedStep(gate.env, gate.isOpen, texts, i);
    flow := gate.PushDelta(texts[i]);
  }

  lemma StreamedStep(env: Env, isOpen: bool, texts: seq<string>, n: nat)
    requires n < |texts|
    ensures var earlier, t := Streamed(env, isOpen, texts, n), STREAM_START + SLOT * n;
            Streamed(env, isOpen, texts, n + 1)
            == earlier + if isOpen && Published(env, t) then [Sent(Delta(|earlier|, texts[n]), t + SLOT - 1)] else []
  {
  }

  /** The pushes of the turn and its end. */
  method StreamTurn(gate: StreamGate, texts: seq<string>, completed: bool) returns (flows: seq<Flow>)
    requires gate.next == 0 && gate.now == STREAM_START
    modifies gate
    ensures gate.isOpen == old(gate.isOpen)
    ensures var deltas := Streamed(gate.env, gate.isOpen, texts, |texts|);
            gate.sent == old(gate.sent) + deltas
                         + if gate.isOpen then EndingOf(gate.env, |deltas|, STREAM_START + SLOT * |texts|, completed)
                           else []
    ensures flows == Flows(gate.env, gate.isOpen, |texts|)
  {
    flows := PushAll(gate, texts);
    if completed {
      gate.Finish();
    } else {
      gate.Interrupt();
    }
  }

  lemma TranscriptShape(env: Env, installed: bool, consent: bool, texts: seq<string>, completed: bool)
    ensures IsTranscript(env, TranscriptOf(env, installed, consent, texts, completed), texts)
  {
  }

  /** While the channel has room and the connection stays current, every stream
      that was opened is closed, and a turn that completed on a current premise is
      closed as completed. */
  lemma OpenedIsClosed(env: Env, texts: seq<string>, completed: bool)
    requires forall t :: env.room(t) && env.connection(t)
    ensures var ending := TranscriptOf(env, true, true, texts, completed).ending;
            && ending != []
            && ending[|ending| - 1].frame == Close(completed && env.durable(STREAM_START + SLOT * |texts| + 1))
  {
  }

  ghost predicate Has(sent: seq<Sent>, frame: Frame) {
    exists x :: x in sent && x.frame == frame
  }

  lemma HasAmongTwo(sent: seq<Sent>, frame: Frame)
    requires |sent| <= 2
    ensures Has(sent, frame)
            <==> (|sent| >= 1 && sent[0].frame == frame) || (|sent| == 2 && sent[1].frame == frame)
  {
    if |sent| >= 1 && sent[0].frame == frame { assert sent[0] in sent; }
    if |sent| == 2 && sent[1].frame == frame { assert sent[1] in sent; }
  }

  /** Whether a turn that completed gets its final frame out, and its close. */
  predicate Finishes(env: Env, t: nat) {
    env.connection(t) && env.durable(t + 1) && env.room(t + 2) && env.connection(t + 3)
  }

  predicate Closes(env: Env, t: nat) {
    Finishes(env, t) && env.room(t + 4) && env.connection(t + 5)
  }

  /** When an interruption is tried. */
  function InterruptedAt(env: Env, t: nat, completed: bool): nat {
    if !completed then t
    else if !env.connection(t) || !env.durable(t + 1) then t + 2
    else if !Finishes(env, t) then t + 4
    else t + 6
  }

  /** What a turn sends at its end, frame by frame: the final frame exactly when the
      turn completed and the connection, the premise, the room and the connection
      again hold, the completed close behind it exactly when two more checks pass,
      and where there is no completed close an interruption if there is room then. */
  lemma EndingExactly(env: Env, n: nat, t: nat, completed: bool)
    ensures var ending := EndingOf(env, n, t, completed);
            && (forall k :: Has(ending, Final(k)) <==> k == n && completed && Finishes(env, t))
            && (Has(ending, Close(true)) <==> completed && Closes(env, t))
            && (Has(ending, Close(false))
                <==> !(completed && Closes(env, t)) && env.room(InterruptedAt(env, t, completed)))
            && (forall i, j :: 0 <= i < j < |ending| ==> ending[i].frame == Final(n) && ending[j].frame.Close?)
  {
    var ending := EndingOf(env, n, t, completed);
    HasAmongTwo(ending, Close(true));
    HasAmongTwo(ending, Close(false));
    forall k ensures Has(ending, Final(k)) <==> k == n && completed && Finishes(env, t) {
      HasAmongTwo(ending, Final(k));
    }
  }

  /** Only a turn whose stream was opened sends anything behind its opening frames,
      and once the consent is no longer the admitted one that is at most an
      interruption. */
  lemma ConsentGates(env: Env, installed: bool, consent: bool, texts: seq<string>, completed: bool)
    ensures var script := TranscriptOf(env, installed, consent, texts, completed);
            && (Sent(Open, 0) in script.All() <==> installed && env.connection(0) && env.room(1) && env.room(2))
            && (Sent(Accept, 0) in script.All() <==> installed && env.connection(0) && env.room(1))
            && (!Opens(env, installed) ==> |script.All()| <= 1)
            && (Opens(env, installed) && !consent ==>
                  script.All() == [Sent(Accept, 0), Sent(Open, 0)]
                                  + if env.connection(3) && env.room(4) then [Sent(Close(false), 3)] else [])
  {
    TranscriptShape(env, installed, consent, texts, completed);
    DeltasNumbered(env, texts, STREAM_START, |texts|);
    OpeningExactly(env, installed);
  }

  lemma OpeningExactly(env: Env, installed: bool)
    ensures var opening := OpeningOf(env, installed);
            && (Sent(Open, 0) in opening <==> installed && env.connection(0) && env.room(1) && env.room(2))
            && (Sent(Accept, 0) in opening <==> installed && env.connection(0) && env.room(1))
  {
  }

  // ----------------------------------------------------------- the grammar

  /** The delta frames are numbered without gaps, each was published by a push
      that passed every check, and they come in the order of the pushes. */
  lemma {:induction false} DeltasNumbered(env: Env, texts: seq<string>, t: nat, n: nat)
    requires n <= |texts|
    ensures var d := Deltas(env, texts, t, n);
            && |d| <= n
            && (forall i :: 0 <= i < |d| ==> d[i].frame.Delta? && d[i].frame.number == i)
            && (forall i :: 0 <= i < |d| ==> t <= d[i].at < t + SLOT * n && env.connection(d[i].at))
  {
    DeltasOnCurrent(env, texts, t, n);
    if n > 0 {
      DeltasNumbered(env, texts, t, n - 1);
    }
  }

  lemma {:induction false} DeltasOnCurrent(env: Env, texts: seq<string>, t: nat, n: nat)
    requires n <= |texts|
    ensures forall x :: x in Deltas(env, texts, t, n) ==> env.connection(x.at)
  {
    if n > 0 {
      DeltasOnCurrent(env, texts, t, n - 1);
      if Published(env, t + SLOT * (n - 1)) { PublishedOnCurrent(env, t + SLOT * (n - 1)); }
    }
  }

  /** The last check of a published delta is made by the send itself. */
  lemma PublishedOnCurrent(env: Env, t: nat)
    requires Published(env, t)
    ensures env.connection(t + SLOT - 1)
  {
    FailingChecks(env, t, 0);
    assert Holds(env, CHECKS[8], t + 8);
  }

  lemma {:induction false} DeltasOrdered(env: Env, texts: seq<string>, t: nat, n: nat)
    requires n <= |texts|
    ensures var d := Deltas(env, texts, t, n); forall i, j :: 0 <= i < j < |d| ==> d[i].at < d[j].at
  {
    if n > 0 {
      DeltasOrdered(env, texts, t, n - 1);
      DeltasNumbered(env, texts, t, n - 1);
    }
  }

  ghost predicate IsPublishedAs(env: Env, texts: seq<string>, t: nat, k: nat, sent: Sent, i: nat)
    requires k < |texts|
  {
    Published(env, t + SLOT * k) && sent == Sent(Delta(i, texts[k]), t + SLOT * k + SLOT - 1)
  }

  ghost predicate FromPush(env: Env, texts: seq<string>, t: nat, n: nat, sent: Sent, i: nat)
    requires n <= |texts|
  {
    exists k: nat :: k < n && IsPublishedAs(env, texts, t, k, sent, i)
  }

  ghost predicate AllFromPushes(env: Env, texts: seq<string>, t: nat, n: nat, frames: seq<Sent>)
    requires n <= |texts|
  {
    forall i: nat :: i < |frames| ==> FromPush(env, texts, t, n, frames[i], i)
  }

  ghost predicate PushFound(env: Env, texts: seq<string>, t: nat, k: nat, frames: seq<Sent>)
    requires k < |texts|
  {
    exists i: nat :: i < |frames| && IsPublishedAs(env, texts, t, k, frames[i], i)
  }

  lemma {:induction false} DeltasFromPushes(env: Env, texts: seq<string>, t: nat, n: nat)
    requires n <= |texts|
    ensures AllFromPushes(env, texts, t, n, Deltas(env, texts, t, n))
  {
    if n > 0 {
      var earlier, d := Deltas(env, texts, t, n - 1), Deltas(env, texts, t, n);
      DeltasFromPushes(env, texts, t, n - 1);
      forall i: nat | i < |d| ensures FromPush(env, texts, t, n, d[i], i) {
        if i < |earlier| {
          assert FromPush(env, texts, t, n - 1, earlier[i], i);
        } else {
          assert IsPublishedAs(env, texts, t, n - 1, d[i], i);
        }
      }
    }
  }

  lemma {:induction false} PublishedIsFound(env: Env, texts: seq<string>, t: nat, n: nat, k: nat)
    requires n <= |texts| && k < n && Published(env, t + SLOT * k)
    ensures PushFound(env, texts, t, k, Deltas(env, texts, t, n))
  {
    var earlier, d := Deltas(env, texts, t, n - 1), Deltas(env, texts, t, n);
    if k < n - 1 {
      PublishedIsFound(env, texts, t, n - 1, k);
      var i: nat :| i < |earlier| && IsPublishedAs(env, texts, t, k, earlier[i], i);
      assert d[i] == earlier[i];
      assert IsPublishedAs(env, texts, t, k, d[i], i);
    } else {
      assert IsPublishedAs(env, texts, t, n - 1, d[|earlier|], |earlier|);
    }
  }

  /** The frames are exactly the pushes that passed every check, with their texts
      and in their order. */
  lemma {:induction false} DeltasAreThePublished(env: Env, texts: seq<string>, t: nat, n: nat)
    requires n <= |texts|
    ensures var d := Deltas(env, texts, t, n);
            && AllFromPushes(env, texts, t, n, d)
            && (forall k: nat :: k < n && Published(env, t + SLOT * k) ==> PushFound(env, texts, t, k, d))
            && (forall i, j :: 0 <= i < j < |d| ==> d[i].at < d[j].at)
  {
    DeltasOrdered(env, texts, t, n);
    DeltasFromPushes(env, texts, t, n);
    forall k: nat | k < n && Published(env, t + SLOT * k)
      ensures PushFound(env, texts, t, k, Deltas(env, texts, t, n))
    {
      PublishedIsFound(env, texts, t, n, k);
    }
  }

  /** The order of frames on a stream: the acceptance and the opening, deltas
      numbered 0, 1, ..., at most one final frame with the next number, and at
      most one close, which is last and completes only behind the final frame. */
  predicate Grammatical(frames: seq<Sent>) {
    forall i :: 0 <= i < |frames| ==>
      match frames[i].frame
      case Accept => i == 0
      case Open => i == 1
      case Delta(k, _) => i == k + 2
      case Final(k) => i == k + 2 && i + 2 >= |frames| && (i + 1 < |frames| ==> frames[i + 1].frame.Close?)
      case Close(completed) => i >= 2 && i == |frames| - 1 && (completed ==> frames[i - 1].frame.Final?)
  }

  lemma ShapeGrammatical(env: Env, script: Transcript, texts: seq<string>)
    requires IsTranscript(env, script, texts)
    ensures Grammatical(script.All())
  {
    DeltasNumbered(env, texts, STREAM_START, |texts|);
    FrameAt(script);
  }

  lemma FrameAt(script: Transcript)
    ensures var frames, start, stop := script.All(), |script.opening|, |script.opening| + |script.deltas|;
            && |frames| == stop + |script.ending|
            && forall i :: 0 <= i < |frames| ==>
                 frames[i] == if i < start then script.opening[i] else if i < stop then script.deltas[i - start]
                     else script.ending[i - stop]
  {
  }

  /** Whatever fails at whichever await, what a turn sends is grammatical. */
  lemma StreamGrammar(env: Env, installed: bool, consent: bool, texts: seq<string>, completed: bool)
    ensures Grammatical(TranscriptOf(env, installed, consent, texts, completed).All())
  {
    TranscriptShape(env, installed, consent, texts, completed);
    ShapeGrammatical(env, TranscriptOf(env, installed, consent, texts, completed), texts);
  }

  /** Every frame but an interruption is sent while the connection is current;
      once it has been superseded, a turn sends nothing else. */
  lemma SupersededSilence(env: Env, installed: bool, consent: bool, texts: seq<string>, completed: bool, x: Sent,
                          since: nat)
    requires x in TranscriptOf(env, installed, consent, texts, completed).All() && x.frame != Close(false)
    ensures env.connection(x.at)
    ensures env.SupersessionIsFinal() && !env.connection(since) ==> x.at < since
  {
    var script := TranscriptOf(env, installed, consent, texts, completed);
    TranscriptShape(env, installed, consent, texts, completed);
    DeltasNumbered(env, texts, STREAM_START, |texts|);
    assert x in script.opening || x in script.deltas || x in script.ending;
  }

  lemma {:induction false} AllPublished(env: Env, texts: seq<string>, t: nat, n: nat)
    requires n <= |texts| && forall k: nat :: k < n ==> Published(env, t + SLOT * k)
    ensures |Deltas(env, texts, t, n)| == n
    ensures forall i :: 0 <= i < n ==> Deltas(env, texts, t, n)[i].frame == Delta(i, texts[i])
  {
    if n > 0 {
      AllPublished(env, texts, t, n - 1);
    }
  }

  /** A push that does not publish leaves a frame fewer than pushes. */
  lemma {:induction false} OneMissing(env: Env, texts: seq<string>, t: nat, n: nat, k: nat)
    requires k < n <= |texts| && !Published(env, t + SLOT * k)
    ensures |Deltas(env, texts, t, n)| < n
  {
    if k < n - 1 {
      OneMissing(env, texts, t, n - 1, k);
    } else {
      DeltasNumbered(env, texts, t, n - 1);
    }
  }

  /** There are as many frames as pushes exactly when every push published. */
  lemma AllPublishedIff(env: Env, texts: seq<string>, t: nat)
    ensures |Deltas(env, texts, t, |texts|)| == |texts|
            <==> forall k: nat :: k < |texts| ==> Published(env, t + SLOT * k)
  {
    if forall k: nat :: k < |texts| ==> Published(env, t + SLOT * k) {
      AllPublished(env, texts, t, |texts|);
    } else {
      var k: nat :| k < |texts| && !Published(env, t + SLOT * k);
      OneMissing(env, texts, t, |texts|, k);
    }
  }

  /** A push on a connection that stays current publishes exactly when it does not
      abort. */
  lemma ContinuedIffPublished(env: Env, t: nat, later: nat)
    requires env.SupersessionIsFinal() && t + SLOT <= later && env.connection(later)
    ensures FlowOf(env, true, t) == Continue <==> Published(env, t)
  {
    FailingChecks(env, t, 0);
    assert forall i :: 0 <= i < SLOT && CHECKS[i] == Connection ==> Holds(env, CHECKS[i], t + i);
  }

  /** All texts of the turn, in order, between the opening and a completed close. */
  predicate IsWhole(frames: seq<Sent>, texts: seq<string>) {
    && |frames| == |texts| + 4
    && frames[0].frame == Accept && frames[1].frame == Open
    && (forall i :: 0 <= i < |texts| ==> frames[i + 2].frame == Delta(i, texts[i]))
    && frames[|texts| + 2].frame == Final(|texts|) && frames[|texts| + 3].frame == Close(true)
  }

  lemma FlowsIffPublished(env: Env, texts: seq<string>, later: nat)
    requires env.SupersessionIsFinal() && STREAM_START + SLOT * |texts| <= later && env.connection(later)
    ensures forall k: nat :: k < |texts| ==>
              (FlowOf(env, true, STREAM_START + SLOT * k) == Continue <==> Published(env, STREAM_START + SLOT * k))
  {
    forall k: nat | k < |texts|
      ensures FlowOf(env, true, STREAM_START + SLOT * k) == Continue <==> Published(env, STREAM_START + SLOT * k)
    {
      ContinuedIffPublished(env, STREAM_START + SLOT * k, later);
    }
  }

  /** The shape of a turn with a completed close. */
  lemma CompletedShape(env: Env, script: Transcript, texts: seq<string>, close: Sent)
    requires IsTranscript(env, script, texts) && close in script.All() && close.frame == Close(true)
    ensures |script.opening| == |script.ending| == 2
    ensures script.opening[0].frame == Accept && script.opening[1].frame == Open
    ensures script.deltas == Deltas(env, texts, STREAM_START, |texts|)
    ensures script.ending[0].frame == Final(|script.deltas|) && script.ending[1] == close
    ensures STREAM_START + SLOT * |texts| <= close.at && env.connection(close.at)
  {
    ClosesAtEnd(env, script, texts, close);
  }

  lemma WholeIffCount(env: Env, script: Transcript, texts: seq<string>, close: Sent)
    requires IsTranscript(env, script, texts) && close in script.All() && close.frame == Close(true)
    ensures IsWhole(script.All(), texts) <==> forall k: nat :: k < |texts| ==> Published(env, STREAM_START + SLOT * k)
  {
    CompletedShape(env, script, texts, close);
    AllPublishedIff(env, texts, STREAM_START);
    if |script.deltas| == |texts| {
      AllPublished(env, texts, STREAM_START, |texts|);
      PartsInOrder(script, |texts|);
    }
  }

  lemma OpensIfCompleted(env: Env, installed: bool, consent: bool, texts: seq<string>, completed: bool, close: Sent)
    requires close in TranscriptOf(env, installed, consent, texts, completed).All() && close.frame == Close(true)
    ensures Opens(env, installed)
  {
    var script := TranscriptOf(env, installed, consent, texts, completed);
    TranscriptShape(env, installed, consent, texts, completed);
    CompletedShape(env, script, texts, close);
  }

  /** What a completed close says: it follows every text of the turn, in order, if
      and only if no push aborted; and whether or not, the texts sent are exactly
      those of the pushes that went on. */
  lemma CompletedStreamIsWholeIff(env: Env, installed: bool, consent: bool, texts: seq<string>, completed: bool,
                                  close: Sent)
    requires env.SupersessionIsFinal()
    requires close in TranscriptOf(env, installed, consent, texts, completed).All() && close.frame == Close(true)
    ensures IsWhole(TranscriptOf(env, installed, consent, texts, completed).All(), texts)
            <==> forall k: nat :: k < |texts| ==>
                 FlowOf(env, Opens(env, installed), STREAM_START + SLOT * k) == Continue
    ensures TranscriptOf(env, installed, consent, texts, completed).deltas == Deltas(env, texts, STREAM_START, |texts|)
    ensures forall k: nat :: k < |texts| ==>
              (FlowOf(env, Opens(env, installed), STREAM_START + SLOT * k) == Continue
               <==> Published(env, STREAM_START + SLOT * k))
  {
    TranscriptShape(env, installed, consent, texts, completed);
    var script := TranscriptOf(env, installed, consent, texts, completed);
    OpensIfCompleted(env, installed, consent, texts, completed, close);
    CompletedShape(env, script, texts, close);
    WholeIffCount(env, script, texts, close);
    FlowsIffPublished(env, texts, close.at);
  }

  /** The evidence of the only push cannot be committed. */
  const UNCOMMITTED := Env(_ => true, _ => true, _ => true, t => t != STREAM_START + 5)

  /** A reply that is pushed once, at its end, and whose push aborts is completed
      without its text: nobody looks at the answer to that push. */
  lemma CompletedWithoutText(text: string)
    ensures FlowOf(UNCOMMITTED, true, STREAM_START) == Abort(EvidenceLost)
    ensures TranscriptOf(UNCOMMITTED, true, true, [text], true).deltas == []
    ensures exists x :: x in TranscriptOf(UNCOMMITTED, true, true, [text], true).All() && x.frame == Close(true)
  {
    FailsFirst(UNCOMMITTED, STREAM_START, 5);
    assert Deltas(UNCOMMITTED, [text], STREAM_START, 0) == [];
    var script := TranscriptOf(UNCOMMITTED, true, true, [text], true);
    assert script.ending[1].frame == Close(true) && script.ending[1] in script.All();
  }

  lemma ClosesAtEnd(env: Env, script: Transcript, texts: seq<string>, close: Sent)
    requires IsTranscript(env, script, texts) && close in script.All() && close.frame.Close?
    ensures close in script.ending
  {
    DeltasNumbered(env, texts, STREAM_START, |texts|);
    assert close in script.opening || close in script.deltas || close in script.ending;
  }

  lemma PartsInOrder(script: Transcript, n: nat)
    requires |script.opening| == 2 && |script.deltas| == n && |script.ending| == 2
    ensures var frames := script.All();
            && |frames| == n + 4
            && frames[0] == script.opening[0] && frames[1] == script.opening[1]
            && (forall i :: 0 <= i < n ==> frames[i + 2] == script.deltas[i])
            && frames[n + 2] == script.ending[0] && frames[n + 3] == script.ending[1]
  {
  }
}
