/** The Host's presentation state (`presentation.rs`): live receipts, the ring
    of retired receipt ids and the per-connection reference maps. */
module Presentations {
  import opened Prelude

  const RETIRED_RECEIPT_CAP: nat := 64
  const RESUME_COMMAND_CAP: nat := 4096

  type Connection = string
  type Companion = nat
  type ReceiptId = nat
  type Wire = nat
  type Instant = nat

  datatype Receipt = Receipt(
    id: ReceiptId, connection: Connection, incarnation: (u64, u64), client: nat,
    round: string, generation: u64, selected: seq<nat>, expiresAt: Instant)

  /** Entries a connection owns, under the wire name it was given. */
  type Refs<V> = map<(Connection, Wire), V>

  datatype State = State(
    receipts: map<Companion, Receipt>, retired: seq<(ReceiptId, Connection)>,
    taskRefs: Refs<nat>, sourceRefs: Refs<nat>, carried: Refs<nat>, cursors: Refs<nat>, subs: map<Connection, nat>,
    resume: map<nat, Connection>) {

    predicate KnowsRetired(id: ReceiptId) {
      exists i :: 0 <= i < |retired| && retired[i].0 == id
    }

    function Retire(id: ReceiptId, connection: Connection): State {
      if KnowsRetired(id) then this
      else
        var longer := retired + [(id, connection)];
        this.(retired := if |longer| > RETIRED_RECEIPT_CAP then longer[|longer| - RETIRED_RECEIPT_CAP..] else longer)
    }

    function RemoveReceipt(key: Companion): State {
      if key !in receipts then this
      else this.(receipts := receipts - {key}).Retire(receipts[key].id, receipts[key].connection)
    }

    /** Receipts leave in the order of the keys given. */
    function RemoveReceipts(keys: seq<Companion>): State
      decreases |keys|
    {
      if keys == [] then this else RemoveReceipt(keys[0]).RemoveReceipts(keys[1..])
    }

    /** The part of `commit_install` that stores the receipt. */
    function Install(key: Companion, receipt: Receipt): State {
      var stored := this.(receipts := receipts[key := receipt]);
      if key in receipts then stored.Retire(receipts[key].id, receipts[key].connection) else stored
    }

    predicate Owned(key: Companion, connection: Connection) {
      key in receipts && receipts[key].connection == connection
    }

    predicate Due(key: Companion, connection: Connection, now: Instant) {
      Owned(key, connection) && now >= receipts[key].expiresAt
    }
  }

  function Without<V>(refs: Refs<V>, connection: Connection): Refs<V> {
    map k | k in refs && k.0 != connection :: refs[k]
  }

  /** Everything of a closing connection but its receipts. */
  function DropEntries(s: State, connection: Connection): State {
    s.(taskRefs := Without(s.taskRefs, connection), sourceRefs := Without(s.sourceRefs, connection),
       carried := Without(s.carried, connection), cursors := Without(s.cursors, connection),
       subs := s.subs - {connection},
       resume := map r | r in s.resume && s.resume[r] != connection :: s.resume[r])
  }

  /** An enumeration of a set of keys; the maps iterate in no fixed order. */
  ghost predicate Enumerates(keys: seq<Companion>, all: set<Companion>) {
    && (forall k :: k in keys <==> k in all)
    && (forall i, j :: 0 <= i < j < |keys| ==> keys[i] != keys[j])
  }

  // -------------------------------------------------------- acknowledging

  datatype Refusal = StaleConnection | StalePresentation | UnknownRef

  datatype Verdict = Refuse(reason: Refusal) | Proceed(receipt: Receipt)

  /** What an acknowledgement claims, and on which connection it arrived. */
  datatype Ack = Ack(
    receipt: ReceiptId, connection: Connection, incarnation: (u64, u64), client: Option<nat>,
    round: Option<string>, generation: Option<u64>)

  predicate IsLive(s: State, id: ReceiptId) {
    exists k :: k in s.receipts && s.receipts[k].id == id
  }

  /** The verdict on a receipt found under `key`. */
  function Judge(s: State, key: Companion, ack: Ack, now: Instant): (State, Verdict)
    requires key in s.receipts
  {
    var receipt := s.receipts[key];
    if now >= receipt.expiresAt then (s.RemoveReceipt(key), Refuse(StalePresentation))
    else if receipt.connection != ack.connection || receipt.incarnation != ack.incarnation
    then (s, Refuse(StaleConnection))
    else if ack.client != Some(receipt.client) then (s, Refuse(StaleConnection))
    else if ack.round != Some(receipt.round) || ack.generation != Some(receipt.generation)
    then (s, Refuse(StalePresentation))
    else (s.RemoveReceipt(key), Proceed(receipt))
  }

  /** The connection the first ring entry of an id was issued to. */
  function IssuedTo(retired: seq<(ReceiptId, Connection)>, id: ReceiptId): Option<Connection> {
    if retired == [] then None
    else if retired[0].0 == id then Some(retired[0].1)
    else IssuedTo(retired[1..], id)
  }

  /** The verdict on an id that no live receipt has. */
  function JudgeRetired(s: State, ack: Ack): Verdict {
    match IssuedTo(s.retired, ack.receipt)
    case None => Refuse(UnknownRef)
    case Some(issued) => Refuse(if issued != ack.connection then StaleConnection else StalePresentation)
  }

  lemma {:induction false} IssuedToFinds(retired: seq<(ReceiptId, Connection)>, id: ReceiptId)
    requires DistinctLog(retired)
    ensures forall c :: IssuedTo(retired, id) == Some(c) <==> (id, c) in retired
    ensures IssuedTo(retired, id) == None <==> forall i :: 0 <= i < |retired| ==> retired[i].0 != id
  {
    if retired != [] {
      IssuedToFinds(retired[1..], id);
      assert retired == [retired[0]] + retired[1..];
      forall c ensures IssuedTo(retired, id) == Some(c) <==> (id, c) in retired {
        if (id, c) in retired && retired[0].0 == id {
          var i :| 0 <= i < |retired| && retired[i] == (id, c);
          assert i == 0;
        }
      }
      assert forall i :: 1 <= i < |retired| ==> retired[i] == retired[1..][i - 1];
    }
  }

  // --------------------------------------------- references of a connection

  /** `mint_conn_ref`: the wire a value already has, or a fresh one. */
  ghost predicate Mints<V>(refs: Refs<V>, connection: Connection, value: V, unused: Wire, after: Refs<V>, wire: Wire) {
    if exists w :: (connection, w) in refs && refs[(connection, w)] == value
    then after == refs && (connection, wire) in refs && refs[(connection, wire)] == value
    else wire == unused && after == refs[(connection, unused) := value]
  }

  /** On one connection a value has one wire. */
  ghost predicate OneToOne<V>(refs: Refs<V>) {
    forall c, v, w :: (c, v) in refs && (c, w) in refs && refs[(c, v)] == refs[(c, w)] ==> v == w
  }

  /** Minting keeps values and wires one-to-one per connection, keeps every
      existing reference, and answers the same value with the same wire. */
  lemma MintKeepsOneToOne<V>(refs: Refs<V>, connection: Connection, value: V, unused: Wire, after: Refs<V>, wire: Wire)
    requires OneToOne(refs) && forall c :: (c, unused) !in refs
    requires Mints(refs, connection, value, unused, after, wire)
    ensures OneToOne(after)
    ensures (connection, wire) in after && after[(connection, wire)] == value
    ensures forall k :: k in refs ==> k in after && after[k] == refs[k]
    ensures forall later, again, wire' :: Mints(after, connection, value, later, again, wire') ==>
              again == after && wire' == wire
  {
    forall later, again, wire' | Mints(after, connection, value, later, again, wire')
      ensures again == after && wire' == wire
    {
      assert (connection, wire) in after;
    }
  }

  // --------------------------------------------------------------- histories

  /** A change of the per-connection tables; `unused` is a wire drawn at random. */
  datatype Filing =
    | MintTask(connection: Connection, task: nat, unused: Wire)
    | MintSource(connection: Connection, source: nat, unused: Wire)
    | Carry(connection: Connection, item: nat, unused: Wire)
    | Forget(connection: Connection, wires: set<Wire>)
    | StoreCursor(connection: Connection, cursor: nat, unused: Wire)
    | DropCursors(connection: Connection, wires: set<Wire>)
    | Subscribe(connection: Connection, subscription: nat)
    | OpenResume(connection: Connection, command: nat, evicted: set<nat>)
    | DropResume(command: nat)

  /** A filing, and nothing else, leads from `s` to `t`. Decided resume slots are
      evicted only beyond the cap. */
  ghost predicate Files(s: State, f: Filing, t: State) {
    match f
    case MintTask(connection, task, unused) =>
      && (forall c :: (c, unused) !in s.taskRefs)
      && t == s.(taskRefs := t.taskRefs)
      && exists wire :: Mints(s.taskRefs, connection, task, unused, t.taskRefs, wire)
    case MintSource(connection, source, unused) =>
      && (forall c :: (c, unused) !in s.sourceRefs)
      && t == s.(sourceRefs := t.sourceRefs)
      && exists wire :: Mints(s.sourceRefs, connection, source, unused, t.sourceRefs, wire)
    case Carry(connection, item, unused) =>
      (connection, unused) !in s.carried && t == s.(carried := s.carried[(connection, unused) := item])
    case Forget(connection, wires) => t == s.(carried := WithoutWires(s.carried, connection, wires))
    case StoreCursor(connection, cursor, unused) =>
      (connection, unused) !in s.cursors && t == s.(cursors := s.cursors[(connection, unused) := cursor])
    case DropCursors(connection, wires) => t == s.(cursors := WithoutWires(s.cursors, connection, wires))
    case Subscribe(connection, subscription) => t == s.(subs := s.subs[connection := subscription])
    case OpenResume(connection, command, evicted) =>
      var opening := s.resume[command := connection];
      && command !in evicted && |evicted| <= SaturatingSub(|opening|, RESUME_COMMAND_CAP)
      && t == s.(resume := opening - evicted)
    case DropResume(command) => t == s.(resume := s.resume - {command})
  }

  function WithoutWires<V>(refs: Refs<V>, connection: Connection, wires: set<Wire>): Refs<V> {
    map k | k in refs && !(k.0 == connection && k.1 in wires) :: refs[k]
  }

  /** What `reemit_receipt` does to the live receipt it re-emits. */
  function Narrowed(s: State, key: Companion, id: ReceiptId, satisfied: set<nat>): State {
    if key in s.receipts && s.receipts[key].id == id
    then
      var narrowed := s.receipts[key].(selected := Unsatisfied(s.receipts[key].selected, satisfied));
      s.(receipts := s.receipts[key := narrowed])
    else s
  }

  function Unsatisfied(selected: seq<nat>, satisfied: set<nat>): seq<nat> {
    if selected == [] then []
    else (if selected[0] in satisfied then [] else [selected[0]]) + Unsatisfied(selected[1..], satisfied)
  }

  datatype Event =
    | Install(key: Companion, receipt: Receipt)
    | Acknowledge(ack: Ack, now: Instant)
    | DropForeign(key: Companion, connection: Connection, now: Instant)
    | DropUnrehydratable(key: Companion, id: ReceiptId)
    | Narrow(key: Companion, id: ReceiptId, satisfied: set<nat>)
    | File(filing: Filing)
    | Expire(connection: Connection, now: Instant)
    | Close(connection: Connection)
    | Erase

  /** The state with the unbounded log of retired receipts, the ids issued and
      the ids whose acknowledgement went ahead. */
  datatype World = World(state: State, log: seq<(ReceiptId, Connection)>, issued: set<ReceiptId>,
                         proceeded: seq<ReceiptId>)

  const EMPTY_STATE := State(map[], [], map[], map[], map[], map[], map[], map[])
  const EMPTY_WORLD := World(EMPTY_STATE, [], {}, [])

  /** The keys whose receipts a sweeping step retires. */
  ghost function Retiring(s: State, e: Event): set<Companion> {
    if e.Expire? then set k | k in s.receipts && s.Due(k, e.connection, e.now)
    else if e.Close? then set k | k in s.receipts && s.Owned(k, e.connection)
    else s.receipts.Keys
  }

  function Swept(w: World, e: Event, keys: seq<Companion>): World {
    if e.Close? then RemoveAll(w.(state := DropEntries(w.state, e.connection)), keys)
    else if e.Erase? then RemoveAll(w, keys).(state := EMPTY_STATE.(retired := w.state.RemoveReceipts(keys).retired))
    else RemoveAll(w, keys)
  }

  function Logged(s: State, keys: seq<Companion>): seq<(ReceiptId, Connection)>
    decreases |keys|
  {
    if keys == [] then []
    else (if keys[0] in s.receipts then [(s.receipts[keys[0]].id, s.receipts[keys[0]].connection)] else [])
         + Logged(s.RemoveReceipt(keys[0]), keys[1..])
  }

  /** The keys of one retiring step, removed one after the other. */
  function RemoveAll(w: World, keys: seq<Companion>): World {
    w.(state := w.state.RemoveReceipts(keys), log := w.log + Logged(w.state, keys))
  }

  ghost predicate Step(w: World, e: Event, next: World) {
    var s := w.state;
    match e
    case Install(key, receipt) =>
      && receipt.id !in w.issued
      && next == World(s.Install(key, receipt),
                       if key in s.receipts then w.log + [(s.receipts[key].id, s.receipts[key].connection)] else w.log,
                       w.issued + {receipt.id}, w.proceeded)
    case Acknowledge(ack, now) =>
      if IsLive(s, ack.receipt) then
        exists key :: key in s.receipts && s.receipts[key].id == ack.receipt &&
          var (_, verdict) := Judge(s, key, ack, now);
          next == (if verdict.Proceed? || now >= s.receipts[key].expiresAt then RemoveAll(w, [key]) else w)
                  .(proceeded := if verdict.Proceed? then w.proceeded + [ack.receipt] else w.proceeded)
      else next == w
    case DropForeign(key, connection, now) =>
      next == if key in s.receipts && (s.receipts[key].connection != connection || now >= s.receipts[key].expiresAt)
              then RemoveAll(w, [key]) else w
    case DropUnrehydratable(key, id) =>
      next == if key in s.receipts && s.receipts[key].id == id then RemoveAll(w, [key]) else w
    case Narrow(key, id, satisfied) => next == w.(state := Narrowed(s, key, id, satisfied))
    case File(filing) => Files(s, filing, next.state) && next == w.(state := next.state)
    case _ => exists keys :: Enumerates(keys, Retiring(s, e)) && next == Swept(w, e, keys)
  }

  ghost predicate IsRun(worlds: seq<World>, events: seq<Event>) {
    && |worlds| == |events| + 1
    && worlds[0] == EMPTY_WORLD
    && (forall i :: 0 <= i < |events| ==> Step(worlds[i], events[i], worlds[i + 1]))
  }

  // --------------------------------------------------------- the invariant

  function TailOf<T>(log: seq<T>, n: nat): seq<T> {
    if |log| <= n then log else log[|log| - n..]
  }

  ghost function LogIds(log: seq<(ReceiptId, Connection)>): set<ReceiptId> {
    set i | 0 <= i < |log| :: log[i].0
  }

  ghost function LiveIds(receipts: map<Companion, Receipt>): set<ReceiptId> {
    set k | k in receipts :: receipts[k].id
  }

  ghost predicate DistinctIds(receipts: map<Companion, Receipt>) {
    forall a, b :: a in receipts && b in receipts && receipts[a].id == receipts[b].id ==> a == b
  }

  ghost predicate DistinctLog(log: seq<(ReceiptId, Connection)>) {
    forall i, j :: 0 <= i < j < |log| ==> log[i].0 != log[j].0
  }

  /** Every id issued is live or retired, never both and never twice. */
  ghost predicate Inv(w: World) {
    && DistinctIds(w.state.receipts) && DistinctLog(w.log)
    && LiveIds(w.state.receipts) !! LogIds(w.log)
    && LiveIds(w.state.receipts) + LogIds(w.log) == w.issued
    && w.state.retired == TailOf(w.log, RETIRED_RECEIPT_CAP)
    && (forall i, j :: 0 <= i < j < |w.proceeded| ==> w.proceeded[i] != w.proceeded[j])
    && (forall i :: 0 <= i < |w.proceeded| ==> w.proceeded[i] in LogIds(w.log))
    && OneToOne(w.state.taskRefs) && OneToOne(w.state.sourceRefs)
  }

  lemma RetiredInLog(w: World, id: ReceiptId)
    requires w.state.retired == TailOf(w.log, RETIRED_RECEIPT_CAP)
    ensures w.state.KnowsRetired(id) ==> id in LogIds(w.log)
  {
    var cut := |w.log| - |w.state.retired|;
    if i :| 0 <= i < |w.state.retired| && w.state.retired[i].0 == id {
      assert w.log[cut + i].0 == id;
    }
  }

  lemma LogAppended(log: seq<(ReceiptId, Connection)>, entry: (ReceiptId, Connection))
    ensures LogIds(log + [entry]) == LogIds(log) + {entry.0}
    ensures DistinctLog(log) && entry.0 !in LogIds(log) ==> DistinctLog(log + [entry])
    ensures |log| >= RETIRED_RECEIPT_CAP ==>
              TailOf(log + [entry], RETIRED_RECEIPT_CAP) == TailOf(log, RETIRED_RECEIPT_CAP)[1..] + [entry]
  {
    var longer := log + [entry];
    forall id | id in LogIds(log) + {entry.0} ensures id in LogIds(longer) {
      if id in LogIds(log) {
        var i :| 0 <= i < |log| && log[i].0 == id;
        assert longer[i].0 == id;
      } else {
        assert longer[|log|].0 == id;
      }
    }
  }

  lemma RetireIsTail(s: State, log: seq<(ReceiptId, Connection)>, id: ReceiptId, connection: Connection)
    requires s.retired == TailOf(log, RETIRED_RECEIPT_CAP) && !s.KnowsRetired(id)
    ensures s.Retire(id, connection).retired == TailOf(log + [(id, connection)], RETIRED_RECEIPT_CAP)
  {
  }

  lemma LiveRemoved(receipts: map<Companion, Receipt>, key: Companion)
    requires DistinctIds(receipts) && key in receipts
    ensures LiveIds(receipts - {key}) == LiveIds(receipts) - {receipts[key].id}
    ensures DistinctIds(receipts - {key})
  {
    forall id | id in LiveIds(receipts) - {receipts[key].id} ensures id in LiveIds(receipts - {key}) {
      var k :| k in receipts && receipts[k].id == id;
      assert k in receipts - {key} && (receipts - {key})[k].id == id;
    }
  }

  /** The world once the receipt under `key` has been retired. */
  function RemovedOne(w: World, key: Companion): World
    requires key in w.state.receipts
  {
    var receipt := w.state.receipts[key];
    w.(state := w.state.RemoveReceipt(key), log := w.log + [(receipt.id, receipt.connection)])
  }

  /** Removing a receipt moves its id to the log and to the ring. */
  lemma RemoveOne(w: World, key: Companion)
    requires Inv(w) && key in w.state.receipts
    ensures Inv(RemovedOne(w, key))
    ensures RemovedOne(w, key).state
            == w.state.(receipts := w.state.receipts - {key}, retired := RemovedOne(w, key).state.retired)
  {
    var receipt := w.state.receipts[key];
    assert receipt.id in LiveIds(w.state.receipts);
    RetiredInLog(w, receipt.id);
    LogAppended(w.log, (receipt.id, receipt.connection));
    LiveRemoved(w.state.receipts, key);
    RetireIsTail(w.state.(receipts := w.state.receipts - {key}), w.log, receipt.id, receipt.connection);
  }

  lemma {:induction false} RemoveAllUnfolds(w: World, keys: seq<Companion>)
    requires keys != [] && keys[0] in w.state.receipts
    ensures RemoveAll(w, keys) == RemoveAll(RemovedOne(w, keys[0]), keys[1..])
  {
    var receipt := w.state.receipts[keys[0]];
    var entry, later := [(receipt.id, receipt.connection)], Logged(w.state.RemoveReceipt(keys[0]), keys[1..]);
    assert w.log + (entry + later) == w.log + entry + later;
  }

  lemma {:induction false} RemoveMany(w: World, keys: seq<Companion>)
    requires Inv(w)
    requires forall i :: 0 <= i < |keys| ==> keys[i] in w.state.receipts
    requires forall i, j :: 0 <= i < j < |keys| ==> keys[i] != keys[j]
    ensures var next := RemoveAll(w, keys);
            && Inv(next)
            && next.state == w.state.(receipts := w.state.receipts - Among(keys), retired := next.state.retired)
            && LogIds(w.log) <= LogIds(next.log)
    decreases |keys|
  {
    if keys == [] {
      assert RemoveAll(w, keys) == w;
      assert w.state.receipts - Among(keys) == w.state.receipts;
    } else {
      var receipt := w.state.receipts[keys[0]];
      RemoveOne(w, keys[0]);
      LogAppended(w.log, (receipt.id, receipt.connection));
      var first := RemovedOne(w, keys[0]);
      forall i | 0 <= i < |keys[1..]| ensures keys[1..][i] in first.state.receipts {
        assert keys[1..][i] == keys[i + 1];
      }
      RemoveMany(first, keys[1..]);
      RemoveAllUnfolds(w, keys);
      AmongSplits(w.state.receipts, keys);
    }
  }

  lemma AmongSplits(receipts: map<Companion, Receipt>, keys: seq<Companion>)
    requires keys != []
    ensures receipts - {keys[0]} - Among(keys[1..]) == receipts - Among(keys)
  {
    assert Among(keys) == {keys[0]} + Among(keys[1..]);
  }

  function Among(keys: seq<Companion>): set<Companion> {
    set k | k in keys
  }

  lemma {:induction false} LiveAdded(receipts: map<Companion, Receipt>, key: Companion, receipt: Receipt)
    requires DistinctIds(receipts) && key !in receipts && receipt.id !in LiveIds(receipts)
    ensures LiveIds(receipts[key := receipt]) == LiveIds(receipts) + {receipt.id}
    ensures DistinctIds(receipts[key := receipt])
  {
    var more := receipts[key := receipt];
    forall id | id in LiveIds(receipts) ensures id in LiveIds(more) {
      var k :| k in receipts && receipts[k].id == id;
      assert more[k].id == id;
    }
    assert more[key].id == receipt.id;
    forall k | k in receipts ensures receipts[k].id in LiveIds(receipts) {
    }
  }

  lemma InstallKeeps(w: World, key: Companion, receipt: Receipt, next: World)
    requires Inv(w) && Step(w, Install(key, receipt), next)
    ensures Inv(next)
  {
    var cleared := if key in w.state.receipts then RemovedOne(w, key) else w;
    if key in w.state.receipts {
      RemoveOne(w, key);
      assert (w.state.receipts - {key})[key := receipt] == w.state.receipts[key := receipt];
    }
    LiveAdded(cleared.state.receipts, key, receipt);
    assert next.state == cleared.state.(receipts := cleared.state.receipts[key := receipt]);
  }

  lemma EnumerationFits(keys: seq<Companion>, all: set<Companion>)
    requires Enumerates(keys, all)
    ensures Among(keys) == all && forall i :: 0 <= i < |keys| ==> keys[i] in all
  {
  }

  lemma SweepKeeps(w: World, e: Event, next: World)
    requires Inv(w) && Step(w, e, next) && (e.Expire? || e.Close? || e.Erase?)
    ensures Inv(next) && LogIds(w.log) <= LogIds(next.log)
    ensures next.state.receipts == w.state.receipts - Retiring(w.state, e)
    ensures next.proceeded == w.proceeded && next.issued == w.issued
    ensures e.Expire? ==> next.state == w.state.(receipts := next.state.receipts, retired := next.state.retired)
    ensures e.Close? ==>
              var dropped := DropEntries(w.state, e.connection);
              next.state == dropped.(receipts := next.state.receipts, retired := next.state.retired)
  {
    var keys :| Enumerates(keys, Retiring(w.state, e)) && next == Swept(w, e, keys);
    EnumerationFits(keys, Retiring(w.state, e));
    var from := if e.Close? then w.(state := DropEntries(w.state, e.connection)) else w;
    RemoveMany(from, keys);
    if e.Erase? {
      assert w.state.receipts - Among(keys) == map[];
    }
  }

  lemma AcknowledgeKeeps(w: World, e: Event, next: World)
    requires Inv(w) && Step(w, e, next) && e.Acknowledge?
    ensures Inv(next) && LogIds(w.log) <= LogIds(next.log)
  {
    if IsLive(w.state, e.ack.receipt) {
      var key :| key in w.state.receipts && w.state.receipts[key].id == e.ack.receipt &&
        var (_, verdict) := Judge(w.state, key, e.ack, e.now);
        next == (if verdict.Proceed? || e.now >= w.state.receipts[key].expiresAt then RemoveAll(w, [key]) else w)
                .(proceeded := if verdict.Proceed? then w.proceeded + [e.ack.receipt] else w.proceeded);
      RemoveMany(w, [key]);
      RemovedIsLogged(w, key);
      assert e.ack.receipt in LiveIds(w.state.receipts);
    }
  }

  lemma RemovedIsLogged(w: World, key: Companion)
    requires key in w.state.receipts
    ensures w.state.receipts[key].id in LogIds(RemoveAll(w, [key]).log)
  {
    var receipt := w.state.receipts[key];
    assert [key][1..] == [];
    assert Logged(w.state, [key]) == [(receipt.id, receipt.connection)] + Logged(w.state.RemoveReceipt(key), []);
    assert RemoveAll(w, [key]).log == w.log + [(receipt.id, receipt.connection)];
    LogAppended(w.log, (receipt.id, receipt.connection));
  }

  lemma FilingKeeps(w: World, filing: Filing, next: World)
    requires Inv(w) && Step(w, File(filing), next)
    ensures Inv(next)
  {
    var s, t := w.state, next.state;
    if filing.MintTask? {
      var wire :| Mints(s.taskRefs, filing.connection, filing.task, filing.unused, t.taskRefs, wire);
      MintKeepsOneToOne(s.taskRefs, filing.connection, filing.task, filing.unused, t.taskRefs, wire);
    } else if filing.MintSource? {
      var wire :| Mints(s.sourceRefs, filing.connection, filing.source, filing.unused, t.sourceRefs, wire);
      MintKeepsOneToOne(s.sourceRefs, filing.connection, filing.source, filing.unused, t.sourceRefs, wire);
    }
  }

  lemma NarrowKeeps(w: World, key: Companion, id: ReceiptId, satisfied: set<nat>, next: World)
    requires Inv(w) && next == w.(state := Narrowed(w.state, key, id, satisfied))
    ensures Inv(next)
  {
    NarrowedIds(w.state, key, id, satisfied);
    SameIds(w.state.receipts, next.state.receipts);
  }

  /** Narrowing changes nothing but the selection of one receipt. */
  lemma NarrowedIds(s: State, key: Companion, id: ReceiptId, satisfied: set<nat>)
    ensures var t := Narrowed(s, key, id, satisfied);
            && t == s.(receipts := t.receipts) && t.receipts.Keys == s.receipts.Keys
            && forall k :: k in s.receipts ==> t.receipts[k] == s.receipts[k].(selected := t.receipts[k].selected)
  {
  }

  lemma SameIds(receipts: map<Companion, Receipt>, others: map<Companion, Receipt>)
    requires receipts.Keys == others.Keys && forall k :: k in receipts ==> receipts[k].id == others[k].id
    ensures LiveIds(receipts) == LiveIds(others)
    ensures DistinctIds(receipts) ==> DistinctIds(others)
  {
  }

  lemma StepKeeps(w: World, e: Event, next: World)
    requires Inv(w) && Step(w, e, next)
    ensures Inv(next) && LogIds(w.log) <= LogIds(next.log)
  {
    match e
    case Install(key, receipt) =>
      InstallKeeps(w, key, receipt, next);
      if key in w.state.receipts {
        LogAppended(w.log, (w.state.receipts[key].id, w.state.receipts[key].connection));
      }
    case Acknowledge(_, _) => AcknowledgeKeeps(w, e, next);
    case DropForeign(key, _, _) =>
      if key in w.state.receipts {
        RemoveMany(w, [key]);
      }
    case DropUnrehydratable(key, _) =>
      if key in w.state.receipts {
        RemoveMany(w, [key]);
      }
    case Narrow(key, id, satisfied) => NarrowKeeps(w, key, id, satisfied, next);
    case File(filing) => FilingKeeps(w, filing, next);
    case _ => SweepKeeps(w, e, next);
  }

  lemma {:induction false} InvHolds(worlds: seq<World>, events: seq<Event>, i: nat)
    requires IsRun(worlds, events) && i < |worlds|
    ensures Inv(worlds[i])
  {
    if i > 0 {
      InvHolds(worlds, events, i - 1);
      assert Step(worlds[i - 1], events[i - 1], worlds[i]);
      StepKeeps(worlds[i - 1], events[i - 1], worlds[i]);
    }
  }

  // ------------------------------------------------------- the main results

  /** Live receipt ids are distinct and disjoint from the ring, and the ring
      holds at most 64 ids, none twice. */
  lemma ReceiptIdsDistinct(worlds: seq<World>, events: seq<Event>, i: nat)
    requires IsRun(worlds, events) && i < |worlds|
    ensures var s := worlds[i].state;
            && DistinctIds(s.receipts)
            && (forall k :: k in s.receipts ==> !s.KnowsRetired(s.receipts[k].id))
            && |s.retired| <= RETIRED_RECEIPT_CAP
            && DistinctLog(s.retired)
  {
    InvHolds(worlds, events, i);
    var w := worlds[i];
    forall k | k in w.state.receipts ensures !w.state.KnowsRetired(w.state.receipts[k].id) {
      RetiredInLog(w, w.state.receipts[k].id);
      assert w.state.receipts[k].id in LiveIds(w.state.receipts);
    }
  }

  /** Every route out of the live receipts retires the id: an id that was issued
      and is no longer live is in the retirement log, exactly once, and never
      comes back; the ring is the last 64 entries of that log. */
  lemma EveryExitRetires(worlds: seq<World>, events: seq<Event>, i: nat, id: ReceiptId)
    requires IsRun(worlds, events) && i < |worlds|
    ensures var w := worlds[i];
            && (id in w.issued <==> id in LiveIds(w.state.receipts) || id in LogIds(w.log))
            && !(id in LiveIds(w.state.receipts) && id in LogIds(w.log))
            && DistinctLog(w.log)
            && w.state.retired == TailOf(w.log, RETIRED_RECEIPT_CAP)
  {
    InvHolds(worlds, events, i);
  }

  /** On one connection, no task and no report source ever has two wires. */
  lemma RefsOneToOne(worlds: seq<World>, events: seq<Event>, i: nat)
    requires IsRun(worlds, events) && i < |worlds|
    ensures OneToOne(worlds[i].state.taskRefs) && OneToOne(worlds[i].state.sourceRefs)
  {
    InvHolds(worlds, events, i);
  }

  lemma {:induction false} LogGrows(worlds: seq<World>, events: seq<Event>, i: nat, j: nat)
    requires IsRun(worlds, events) && i <= j < |worlds|
    ensures LogIds(worlds[i].log) <= LogIds(worlds[j].log)
    decreases j - i
  {
    if i < j {
      InvHolds(worlds, events, i);
      assert Step(worlds[i], events[i], worlds[i + 1]);
      StepKeeps(worlds[i], events[i], worlds[i + 1]);
      LogGrows(worlds, events, i + 1, j);
    }
  }

  /** An acknowledgement goes ahead at most once per receipt: once one has, the
      id is retired and no later acknowledgement of it proceeds. */
  lemma ProceedOnce(worlds: seq<World>, events: seq<Event>, i: nat, j: nat, id: ReceiptId)
    requires IsRun(worlds, events) && i < j < |events|
    requires events[i].Acknowledge? && events[j].Acknowledge? && events[i].ack.receipt == events[j].ack.receipt == id
    requires |worlds[i + 1].proceeded| > |worlds[i].proceeded|
    ensures worlds[j + 1].proceeded == worlds[j].proceeded
    ensures id !in LiveIds(worlds[j].state.receipts)
  {
    ProceededIsLogged(worlds, events, i);
    LogGrows(worlds, events, i + 1, j);
    InvHolds(worlds, events, j);
    assert Step(worlds[j], events[j], worlds[j + 1]);
    RetiredDoesNotProceed(worlds[j], events[j], worlds[j + 1]);
  }

  /** Whether an acknowledgement fits a live receipt in every respect. */
  predicate Fits(receipt: Receipt, ack: Ack, now: Instant) {
    && receipt.id == ack.receipt && now < receipt.expiresAt
    && receipt.connection == ack.connection && receipt.incarnation == ack.incarnation
    && ack.client == Some(receipt.client) && ack.round == Some(receipt.round) &&
       ack.generation == Some(receipt.generation)
  }

  /** An acknowledgement goes ahead if and only if some live receipt fits it; then,
      and when it finds its receipt expired, that receipt alone leaves. */
  lemma ProceedsIff(worlds: seq<World>, events: seq<Event>, i: nat)
    requires IsRun(worlds, events) && i < |events| && events[i].Acknowledge?
    ensures var s, ack, now := worlds[i].state, events[i].ack, events[i].now;
            && (|worlds[i + 1].proceeded| > |worlds[i].proceeded| <==>
                  exists k :: k in s.receipts && Fits(s.receipts[k], ack, now))
            && (forall k :: k in s.receipts ==>
                  (k in worlds[i + 1].state.receipts <==>
                   s.receipts[k].id != ack.receipt ||
                       (now < s.receipts[k].expiresAt && !Fits(s.receipts[k], ack, now))))
  {
    InvHolds(worlds, events, i);
    assert Step(worlds[i], events[i], worlds[i + 1]);
    if IsLive(worlds[i].state, events[i].ack.receipt) {
      AcknowledgeStep(worlds[i], events[i], worlds[i + 1]);
    } else {
      assert forall k :: k in worlds[i].state.receipts ==> worlds[i].state.receipts[k].id != events[i].ack.receipt;
    }
  }

  lemma AcknowledgeStep(w: World, e: Event, next: World)
    requires Inv(w) && Step(w, e, next) && e.Acknowledge? && IsLive(w.state, e.ack.receipt)
    ensures exists key :: key in w.state.receipts && w.state.receipts[key].id == e.ack.receipt
              && (|next.proceeded| > |w.proceeded| <==> Fits(w.state.receipts[key], e.ack, e.now))
              && next.state.receipts ==
                 if Fits(w.state.receipts[key], e.ack, e.now) || e.now >= w.state.receipts[key].expiresAt
                 then w.state.receipts - {key} else w.state.receipts
  {
    var key :| key in w.state.receipts && w.state.receipts[key].id == e.ack.receipt &&
      var (_, verdict) := Judge(w.state, key, e.ack, e.now);
      next == (if verdict.Proceed? || e.now >= w.state.receipts[key].expiresAt then RemoveAll(w, [key]) else w)
              .(proceeded := if verdict.Proceed? then w.proceeded + [e.ack.receipt] else w.proceeded);
    RemoveMany(w, [key]);
    assert Among([key]) == {key};
  }

  lemma ProceededIsLogged(worlds: seq<World>, events: seq<Event>, i: nat)
    requires IsRun(worlds, events) && i < |events| && events[i].Acknowledge?
    requires |worlds[i + 1].proceeded| > |worlds[i].proceeded|
    ensures events[i].ack.receipt in LogIds(worlds[i + 1].log)
  {
    InvHolds(worlds, events, i + 1);
    assert Step(worlds[i], events[i], worlds[i + 1]);
    ProceededIsNamed(worlds[i], events[i], worlds[i + 1]);
  }

  lemma ProceededIsNamed(w: World, e: Event, next: World)
    requires Step(w, e, next) && e.Acknowledge? && Inv(next) && |next.proceeded| > |w.proceeded|
    ensures e.ack.receipt in LogIds(next.log)
  {
    assert next.proceeded[|w.proceeded|] == e.ack.receipt;
  }

  lemma RetiredDoesNotProceed(w: World, e: Event, next: World)
    requires Step(w, e, next) && e.Acknowledge? && Inv(w) && e.ack.receipt in LogIds(w.log)
    ensures next == w && e.ack.receipt !in LiveIds(w.state.receipts)
  {
    assert e.ack.receipt !in LiveIds(w.state.receipts);
    assert !IsLive(w.state, e.ack.receipt) by {
      forall k | k in w.state.receipts ensures w.state.receipts[k].id != e.ack.receipt {
        assert w.state.receipts[k].id in LiveIds(w.state.receipts);
      }
    }
  }

  /** No entry of a connection is left. */
  ghost predicate NothingOf(s: State, connection: Connection) {
    && (forall w :: (connection, w) !in s.taskRefs && (connection, w) !in s.sourceRefs
                 && (connection, w) !in s.carried && (connection, w) !in s.cursors)
    && connection !in s.subs
    && (forall r :: r in s.resume ==> s.resume[r] != connection)
    && (forall k :: k in s.receipts ==> s.receipts[k].connection != connection)
  }

  /** The entries of a connection are the same in both states. */
  ghost predicate SameFor(s: State, t: State, other: Connection) {
    && (forall w :: SameAt(s.taskRefs, t.taskRefs, (other, w)) && SameAt(s.sourceRefs, t.sourceRefs, (other, w))
                 && SameAt(s.carried, t.carried, (other, w)) && SameAt(s.cursors, t.cursors, (other, w)))
    && SameAt(s.subs, t.subs, other)
    && (forall r :: (r in s.resume && s.resume[r] == other) <==> (r in t.resume && t.resume[r] == other))
    && (forall k :: (k in s.receipts && s.receipts[k].connection == other ==> SameAt(s.receipts, t.receipts, k))
                 && (k in t.receipts && t.receipts[k].connection == other ==> SameAt(s.receipts, t.receipts, k)))
  }

  ghost predicate SameAt<K, V>(m: map<K, V>, n: map<K, V>, k: K) {
    (k in m <==> k in n) && (k in m ==> m[k] == n[k])
  }

  /** Closing a connection leaves no entry it owns in any table and changes no
      other connection's, whatever the tables hold. */
  lemma CloseStep(w: World, e: Event, next: World, other: Connection)
    requires Inv(w) && Step(w, e, next) && e.Close?
    ensures NothingOf(next.state, e.connection)
    ensures other != e.connection ==> SameFor(w.state, next.state, other)
  {
    SweepKeeps(w, e, next);
  }

  /** So it is in every run. */
  lemma CloseRemovesExactlyItsOwn(worlds: seq<World>, events: seq<Event>, i: nat, other: Connection)
    requires IsRun(worlds, events) && i < |events| && events[i].Close?
    ensures NothingOf(worlds[i + 1].state, events[i].connection)
    ensures other != events[i].connection ==> SameFor(worlds[i].state, worlds[i + 1].state, other)
  {
    InvHolds(worlds, events, i);
    assert Step(worlds[i], events[i], worlds[i + 1]);
    CloseStep(worlds[i], events[i], worlds[i + 1], other);
  }

  lemma RunExtended(worlds: seq<World>, events: seq<Event>, e: Event, next: World)
    requires IsRun(worlds, events) && Step(worlds[|events|], e, next)
    ensures IsRun(worlds + [next], events + [e])
  {
  }

  /** One more filing at the end of a run. */
  lemma Filed(worlds: seq<World>, events: seq<Event>, f: Filing, t: State) returns (later: seq<World>, done: seq<Event>)
    requires IsRun(worlds, events) && Files(worlds[|events|].state, f, t)
    ensures IsRun(later, done) && later[|done|] == worlds[|events|].(state := t)
  {
    RunExtended(worlds, events, File(f), worlds[|events|].(state := t));
    later, done := worlds + [worlds[|events|].(state := t)], events + [File(f)];
  }

  /** Every table can hold an entry of one connection. */
  lemma TablesFill(c: Connection, receipt: Receipt) returns (worlds: seq<World>, events: seq<Event>)
    requires receipt.connection == c
    ensures IsRun(worlds, events)
    ensures var s := worlds[|events|].state;
            && (c, 0) in s.taskRefs && (c, 0) in s.sourceRefs && (c, 0) in s.carried && (c, 0) in s.cursors
            && c in s.subs && 0 in s.resume && s.resume[0] == c && 0 in s.receipts && s.receipts[0] == receipt
  {
    var s4: State;
    worlds, events, s4 := RefsFill(c);
    var s5 := s4.(subs := map[c := 7]);
    var s6 := s5.(resume := map[0 := c]);
    worlds, events := Filed(worlds, events, Subscribe(c, 7), s5);
    assert s5.resume[0 := c] - {} == map[0 := c];
    worlds, events := Filed(worlds, events, OpenResume(c, 0, {}), s6);
    var last := World(s6.(receipts := map[0 := receipt]), [], {receipt.id}, []);
    RunExtended(worlds, events, Install(0, receipt), last);
    worlds, events := worlds + [last], events + [Install(0, receipt)];
  }

  lemma RefsFill(c: Connection) returns (worlds: seq<World>, events: seq<Event>, s: State)
    ensures IsRun(worlds, events) && worlds[|events|] == EMPTY_WORLD.(state := s)
    ensures var one: Refs<nat> := map[(c, 0) := 7];
            s == EMPTY_STATE.(taskRefs := one, sourceRefs := one, carried := one, cursors := one)
  {
    var one: Refs<nat> := map[(c, 0) := 7];
    var s1 := EMPTY_STATE.(taskRefs := one);
    var s2 := s1.(sourceRefs := one);
    var s3 := s2.(carried := one);
    s := s3.(cursors := one);
    assert Mints(map[], c, 7, 0, one, 0);
    worlds, events := Filed([EMPTY_WORLD], [], MintTask(c, 7, 0), s1);
    worlds, events := Filed(worlds, events, MintSource(c, 7, 0), s2);
    worlds, events := Filed(worlds, events, Carry(c, 7, 0), s3);
    worlds, events := Filed(worlds, events, StoreCursor(c, 7, 0), s);
  }

  /** Expiry removes exactly the connection's due receipts. */
  lemma ExpiryRemovesExactlyDue(worlds: seq<World>, events: seq<Event>, i: nat, key: Companion)
    requires IsRun(worlds, events) && i < |events| && events[i].Expire? && key in worlds[i].state.receipts
    ensures key in worlds[i + 1].state.receipts <==> !worlds[i].state.Due(key, events[i].connection, events[i].now)
    ensures key in worlds[i + 1].state.receipts ==> worlds[i + 1].state.receipts[key] == worlds[i].state.receipts[key]
  {
    InvHolds(worlds, events, i);
    assert Step(worlds[i], events[i], worlds[i + 1]);
    SweepKeeps(worlds[i], events[i], worlds[i + 1]);
  }

  /** What a late acknowledgement is told: `UnknownRef` exactly when the id is
      not among the last 64 retired, `StaleConnection` exactly when it was issued
      to another connection. */
  lemma LateAcknowledgement(worlds: seq<World>, events: seq<Event>, i: nat, ack: Ack)
    requires IsRun(worlds, events) && i < |worlds|
    ensures var w := worlds[i]; var recent := TailOf(w.log, RETIRED_RECEIPT_CAP);
            && (JudgeRetired(w.state, ack) == Refuse(UnknownRef) <==> ack.receipt !in LogIds(recent))
            && (JudgeRetired(w.state, ack) == Refuse(StaleConnection)
                <==> exists c :: c != ack.connection && (ack.receipt, c) in recent)
  {
    ReceiptIdsDistinct(worlds, events, i);
    InvHolds(worlds, events, i);
    IssuedToFinds(worlds[i].state.retired, ack.receipt);
  }

  // ------------------------------------------ which receipt, and which answer

  /** The receipt fits the acknowledgement in who acknowledges. */
  predicate FitsSender(receipt: Receipt, ack: Ack) {
    receipt.connection == ack.connection && receipt.incarnation == ack.incarnation && ack.client == Some(receipt.client)
  }

  /** The receipt fits the acknowledgement in what is acknowledged. */
  predicate FitsView(receipt: Receipt, ack: Ack) {
    ack.round == Some(receipt.round) && ack.generation == Some(receipt.generation)
  }

  /** Every answer to an acknowledgement of a live receipt, and what it leaves: an
      expired receipt and one that goes ahead leave, any other stays. */
  lemma VerdictIff(s: State, key: Companion, ack: Ack, now: Instant)
    requires key in s.receipts
    ensures var r := s.receipts[key];
            var (after, verdict) := Judge(s, key, ack, now);
            && (verdict == Proceed(r) <==> now < r.expiresAt && FitsSender(r, ack) && FitsView(r, ack))
            && (verdict == Refuse(StaleConnection) <==> now < r.expiresAt && !FitsSender(r, ack))
            && (verdict == Refuse(StalePresentation) <==>
                  now >= r.expiresAt || (FitsSender(r, ack) && !FitsView(r, ack)))
            && after.receipts == (if verdict == Proceed(r) || now >= r.expiresAt then s.receipts - {key}
                                  else s.receipts)
  {
  }

  /** Narrowing is a filter: it treats the entries one by one, in order. */
  lemma {:induction false} UnsatisfiedSplits(a: seq<nat>, b: seq<nat>, satisfied: set<nat>)
    ensures Unsatisfied(a + b, satisfied) == Unsatisfied(a, satisfied) + Unsatisfied(b, satisfied)
  {
    if a == [] {
      assert a + b == b;
    } else {
      assert (a + b)[1..] == a[1..] + b;
      UnsatisfiedSplits(a[1..], b, satisfied);
    }
  }

  /** A satisfied entry goes, any other stays. */
  lemma UnsatisfiedOne(id: nat, satisfied: set<nat>)
    ensures Unsatisfied([id], satisfied) == if id in satisfied then [] else [id]
  {
    assert Unsatisfied([], satisfied) == [];
  }

  /** The event that installed a receipt. */
  ghost function InstallOf(events: seq<Event>, i: nat, id: ReceiptId): (install: Option<Event>)
    requires i <= |events|
    ensures install.Some? ==> install.value.Install? && install.value.receipt.id == id
  {
    if i == 0 then None
    else if events[i - 1].Install? && events[i - 1].receipt.id == id then Some(events[i - 1])
    else InstallOf(events, i - 1, id)
  }

  /** What is still selected of a receipt: the selection it was installed with,
      without the entries that the narrowings of it found satisfied. */
  ghost function SelectedOf(events: seq<Event>, i: nat, key: Companion, id: ReceiptId): seq<nat>
    requires i <= |events|
  {
    if i == 0 then []
    else
      var e := events[i - 1];
      if e.Install? && e.receipt.id == id then e.receipt.selected
      else if e.Narrow? && e.id == id && e.key == key
      then Unsatisfied(SelectedOf(events, i - 1, key, id), e.satisfied)
      else SelectedOf(events, i - 1, key, id)
  }

  /** The live receipt under `key` is the one installed there, narrowed. */
  ghost predicate IsInstalled(w: World, events: seq<Event>, i: nat, key: Companion)
    requires i <= |events| && key in w.state.receipts
  {
    var r := w.state.receipts[key];
    var install := InstallOf(events, i, r.id);
    && install.Some? && install.value.key == key
    && r == install.value.receipt.(selected := SelectedOf(events, i, key, r.id))
  }

  /** A receipt that is live after a step was live before, as it was. */
  ghost predicate NoneNew(s: State, t: State) {
    forall k :: k in t.receipts ==> k in s.receipts && t.receipts[k] == s.receipts[k]
  }

  lemma AcknowledgeLive(w: World, e: Event, next: World)
    requires Inv(w) && Step(w, e, next) && e.Acknowledge?
    ensures NoneNew(w.state, next.state)
  {
    if IsLive(w.state, e.ack.receipt) {
      AcknowledgeStep(w, e, next);
    }
  }

  lemma DropLive(w: World, e: Event, next: World)
    requires Inv(w) && Step(w, e, next) && (e.DropForeign? || e.DropUnrehydratable?)
    ensures NoneNew(w.state, next.state)
  {
    if e.key in w.state.receipts {
      RemoveMany(w, [e.key]);
    }
  }

  lemma SweepLive(w: World, e: Event, next: World)
    requires Inv(w) && Step(w, e, next) && (e.Expire? || e.Close? || e.Erase?)
    ensures NoneNew(w.state, next.state)
  {
    SweepKeeps(w, e, next);
  }

  lemma FileLive(w: World, filing: Filing, next: World)
    requires Step(w, File(filing), next)
    ensures NoneNew(w.state, next.state)
  {
  }

  /** A step leaves a live receipt as it was, but for its narrowing, or it installed
      it. */
  lemma LiveStep(w: World, e: Event, next: World, key: Companion)
    requires Inv(w) && Step(w, e, next) && key in next.state.receipts
    ensures e.Install? && e.key == key ==> next.state.receipts[key] == e.receipt
    ensures !(e.Install? && e.key == key) ==>
              && key in w.state.receipts
              && var was, now := w.state.receipts[key], next.state.receipts[key];
                 now == was.(selected := if e.Narrow? && e.key == key && e.id == was.id
                                         then Unsatisfied(was.selected, e.satisfied) else was.selected)
  {
    match e
    case Acknowledge(_, _) => AcknowledgeLive(w, e, next);
    case DropForeign(_, _, _) => DropLive(w, e, next);
    case DropUnrehydratable(_, _) => DropLive(w, e, next);
    case Install(_, _) => InstallLive(w, e, next, key);
    case Narrow(_, _, _) => NarrowLive(w, e, next, key);
    case File(filing) => FileLive(w, filing, next);
    case _ => SweepLive(w, e, next);
  }

  lemma InstallLive(w: World, e: Event, next: World, key: Companion)
    requires Step(w, e, next) && e.Install? && key in next.state.receipts
    ensures if e.key == key then next.state.receipts[key] == e.receipt
            else key in w.state.receipts && next.state.receipts[key] == w.state.receipts[key]
  {
  }

  lemma NarrowLive(w: World, e: Event, next: World, key: Companion)
    requires Step(w, e, next) && e.Narrow? && key in next.state.receipts
    ensures key in w.state.receipts
    ensures var was, now := w.state.receipts[key], next.state.receipts[key];
            now == was.(selected := if e.key == key && e.id == was.id
                                    then Unsatisfied(was.selected, e.satisfied) else was.selected)
  {
  }

  lemma {:induction false} InstalledHolds(worlds: seq<World>, events: seq<Event>, i: nat, key: Companion)
    requires IsRun(worlds, events) && i < |worlds| && key in worlds[i].state.receipts
    ensures IsInstalled(worlds[i], events, i, key)
  {
    assert i > 0;
    InvHolds(worlds, events, i - 1);
    assert Step(worlds[i - 1], events[i - 1], worlds[i]);
    LiveStep(worlds[i - 1], events[i - 1], worlds[i], key);
    var e := events[i - 1];
    if !(e.Install? && e.key == key) {
      InstalledHolds(worlds, events, i - 1, key);
      IssuedIsOld(worlds[i - 1], e, worlds[i], key);
    }
  }

  /** The id of a live receipt is not installed again. */
  lemma IssuedIsOld(w: World, e: Event, next: World, key: Companion)
    requires Inv(w) && Step(w, e, next) && key in w.state.receipts
    ensures e.Install? ==> e.receipt.id != w.state.receipts[key].id
  {
    assert w.state.receipts[key].id in LiveIds(w.state.receipts);
  }

  /** The receipt an acknowledgement goes ahead with is the one that was installed
      under its id, with what the narrowings since have left of its selection; and
      every refusal of a live receipt is explained by that installed receipt. */
  lemma HandedOnIsInstalled(worlds: seq<World>, events: seq<Event>, i: nat, key: Companion, ack: Ack, now: Instant)
    requires IsRun(worlds, events) && i < |worlds|
    requires key in worlds[i].state.receipts && worlds[i].state.receipts[key].id == ack.receipt
    ensures var install, verdict := InstallOf(events, i, ack.receipt), Judge(worlds[i].state, key, ack, now).1;
            && install.Some? && install.value.key == key
            && var r := install.value.receipt;
               && (now < r.expiresAt && FitsSender(r, ack) && FitsView(r, ack) ==>
                     verdict == Proceed(r.(selected := SelectedOf(events, i, key, ack.receipt))))
               && (now < r.expiresAt && !FitsSender(r, ack) ==> verdict == Refuse(StaleConnection))
               && (now >= r.expiresAt || (FitsSender(r, ack) && !FitsView(r, ack)) ==>
                     verdict == Refuse(StalePresentation))
  {
    InstalledHolds(worlds, events, i, key);
  }

  // ------------------------------------------------------- the state in place

  lemma {:induction false} RemoveReceiptsSnoc(s: State, keys: seq<Companion>, key: Companion)
    ensures s.RemoveReceipts(keys + [key]) == s.RemoveReceipts(keys).RemoveReceipt(key)
    decreases |keys|
  {
    if keys == [] {
      assert [key][1..] == [];
    } else {
      assert (keys + [key])[1..] == keys[1..] + [key];
      RemoveReceiptsSnoc(s.RemoveReceipt(keys[0]), keys[1..], key);
    }
  }

  lemma {:induction false} RemoveReceiptsKeeps(s: State, keys: seq<Companion>)
    ensures s.RemoveReceipts(keys).receipts == s.receipts - Among(keys)
    decreases |keys|
  {
    if keys == [] {
      assert s.receipts - Among(keys) == s.receipts;
    } else {
      var first := s.RemoveReceipt(keys[0]);
      assert first.receipts == s.receipts - {keys[0]};
      RemoveReceiptsKeeps(first, keys[1..]);
      AmongSplits(s.receipts, keys);
    }
  }

  /** The ring once one more receipt has been retired; only the ring matters. */
  lemma RetiredNext(s: State, keys: seq<Companion>, key: Companion)
    requires key in s.receipts && key !in keys
    ensures var emptied := s.(receipts := map[], retired := s.RemoveReceipts(keys).retired);
            s.RemoveReceipts(keys + [key]).retired
            == emptied.Retire(s.receipts[key].id, s.receipts[key].connection).retired
  {
    RemoveReceiptsKeeps(s, keys);
    RemoveReceiptsSnoc(s, keys, key);
    SameRing(s.RemoveReceipts(keys), s.(receipts := map[], retired := s.RemoveReceipts(keys).retired), key);
  }

  lemma SameRing(s: State, t: State, key: Companion)
    requires s.retired == t.retired && key in s.receipts
    ensures s.RemoveReceipt(key).retired == t.Retire(s.receipts[key].id, s.receipts[key].connection).retired
  {
  }

  class PresentationState {
    var receipts: map<Companion, Receipt>
    var retired: seq<(ReceiptId, Connection)>
    var taskRefs: Refs<nat>
    var sourceRefs: Refs<nat>
    var carried: Refs<nat>
    var cursors: Refs<nat>
    var subs: map<Connection, nat>
    var resume: map<nat, Connection>

    function Now(): State
      reads this
    {
      State(receipts, retired, taskRefs, sourceRefs, carried, cursors, subs, resume)
    }

    constructor ()
      ensures Now() == EMPTY_STATE
    {
      receipts, retired, taskRefs, sourceRefs := map[], [], map[], map[];
      carried, cursors, subs, resume := map[], map[], map[], map[];
    }

    method Retire(id: ReceiptId, connection: Connection)
      modifies this
      ensures Now() == old(Now()).Retire(id, connection)
    {
      for i := 0 to |retired|
        invariant forall j :: 0 <= j < i ==> retired[j].0 != id
      {
        if retired[i].0 == id { return; }
      }
      assert !Now().KnowsRetired(id);
      retired := retired + [(id, connection)];
      ghost var longer := retired;
      while |retired| > RETIRED_RECEIPT_CAP
        invariant |retired| >= Min(|longer|, RETIRED_RECEIPT_CAP)
        invariant |retired| <= |longer| && retired == longer[|longer| - |retired|..]
        invariant Now() == old(Now()).(retired := retired)
      {
        retired := retired[1..];
      }
    }

    method RemoveReceipt(key: Companion)
      modifies this
      ensures Now() == old(Now()).RemoveReceipt(key)
    {
      if key in receipts {
        var receipt := receipts[key];
        receipts := receipts - {key};
        Retire(receipt.id, receipt.connection);
      }
    }

    /** Removes the receipts collected by a sweep, in the order collected. */
    method RemoveCollected(collected: set<Companion>) returns (ghost keys: seq<Companion>)
      modifies this
      ensures Enumerates(keys, collected)
      ensures Now() == old(Now()).RemoveReceipts(keys)
    {
      var pending := collected;
      keys := [];
      while pending != {}
        invariant pending <= collected && Enumerates(keys, collected - pending)
        invariant Now() == old(Now()).RemoveReceipts(keys)
        decreases |pending|
      {
        var key :| key in pending;
        RemoveReceipt(key);
        RemoveReceiptsSnoc(old(Now()), keys, key);
        keys := keys + [key];
        pending := pending - {key};
      }
    }

    method InstallReceipt(key: Companion, receipt: Receipt)
      modifies this
      ensures Now() == old(Now()).Install(key, receipt)
    {
      var previous := if key in receipts then Some(receipts[key]) else None;
      receipts := receipts[key := receipt];
      if previous.Some? {
        Retire(previous.value.id, previous.value.connection);
      }
    }

    /** The locked part of `reemit_receipt`: whether the receipt is still live. */
    method NarrowReceipt(key: Companion, id: ReceiptId, satisfied: set<nat>) returns (live: bool)
      modifies this`receipts
      ensures Now() == Narrowed(old(Now()), key, id, satisfied)
      ensures live <==> key in receipts && receipts[key].id == id
    {
      if key in receipts && receipts[key].id == id {
        receipts := receipts[key := receipts[key].(selected := Unsatisfied(receipts[key].selected, satisfied))];
      }
      live := key in receipts && receipts[key].id == id;
    }

    /** The locked verdict of `apply_ack`. */
    method ApplyAck(ack: Ack, now: Instant) returns (verdict: Verdict)
      modifies this
      ensures if IsLive(old(Now()), ack.receipt)
              then exists key :: key in old(receipts) && old(receipts)[key].id == ack.receipt
                                 && (Now(), verdict) == Judge(old(Now()), key, ack, now)
              else Now() == old(Now()) && verdict == JudgeRetired(Now(), ack)
    {
      if key :| key in receipts && receipts[key].id == ack.receipt {
        var receipt := receipts[key];
        if now >= receipt.expiresAt {
          RemoveReceipt(key);
          verdict := Refuse(StalePresentation);
        } else if receipt.connection != ack.connection || receipt.incarnation != ack.incarnation {
          verdict := Refuse(StaleConnection);
        } else if ack.client != Some(receipt.client) {
          verdict := Refuse(StaleConnection);
        } else if ack.round != Some(receipt.round) || ack.generation != Some(receipt.generation) {
          verdict := Refuse(StalePresentation);
        } else {
          RemoveReceipt(key);
          verdict := Proceed(receipt);
        }
        assert (Now(), verdict) == Judge(old(Now()), key, ack, now);
      } else {
        for i := 0 to |retired|
          invariant IssuedTo(retired, ack.receipt) == IssuedTo(retired[i..], ack.receipt)
        {
          if retired[i].0 == ack.receipt {
            return Refuse(if retired[i].1 != ack.connection then StaleConnection else StalePresentation);
          }
        }
        verdict := Refuse(UnknownRef);
      }
    }

    method DropConnection(connection: Connection) returns (ghost keys: seq<Companion>)
      modifies this
      ensures Enumerates(keys, Retiring(old(Now()), Close(connection)))
      ensures Now() == DropEntries(old(Now()), connection).RemoveReceipts(keys)
    {
      subs := subs - {connection};
      taskRefs := Without(taskRefs, connection);
      carried := Without(carried, connection);
      sourceRefs := Without(sourceRefs, connection);
      cursors := Without(cursors, connection);
      resume := map r | r in resume && resume[r] != connection :: resume[r];
      keys := RemoveCollected(set k | k in receipts && receipts[k].connection == connection);
    }

    method ExpireDue(connection: Connection, now: Instant) returns (ghost keys: seq<Companion>)
      modifies this
      ensures Enumerates(keys, Retiring(old(Now()), Expire(connection, now)))
      ensures Now() == old(Now()).RemoveReceipts(keys)
    {
      keys := RemoveCollected(set k | k in receipts && receipts[k].connection == connection &&
                              now >= receipts[k].expiresAt);
    }

    /** Every receipt is retired and everything else forgotten; answers how many
        receipts and carried references there were. */
    method InvalidateForErasure() returns (dropped: nat, ghost keys: seq<Companion>)
      modifies this
      ensures dropped == |old(receipts)| + |old(carried)|
      ensures Enumerates(keys, old(receipts).Keys)
      ensures Now() == EMPTY_STATE.(retired := old(Now()).RemoveReceipts(keys).retired)
    {
      dropped := |receipts| + |carried|;
      var issued, pending := receipts, receipts.Keys;
      receipts := map[];
      keys := [];
      while pending != {}
        invariant pending <= issued.Keys && Enumerates(keys, issued.Keys - pending)
        invariant Now() == old(Now()).(receipts := map[], retired := old(Now()).RemoveReceipts(keys).retired)
        decreases |pending|
      {
        var key :| key in pending;
        Retire(issued[key].id, issued[key].connection);
        RetiredNext(old(Now()), keys, key);
        keys := keys + [key];
        pending := pending - {key};
      }
      subs, taskRefs, carried := map[], map[], map[];
      sourceRefs, cursors, resume := map[], map[], map[];
    }

    method MintTaskRef(connection: Connection, task: nat, unused: Wire) returns (wire: Wire)
      modifies this`taskRefs
      ensures Mints(old(taskRefs), connection, task, unused, taskRefs, wire)
    {
      if key :| key in taskRefs && key.0 == connection && taskRefs[key] == task {
        assert taskRefs[(connection, key.1)] == task;
        wire := key.1;
      } else {
        assert forall w :: (connection, w) in taskRefs ==> taskRefs[(connection, w)] != task;
        wire := unused;
        taskRefs := taskRefs[(connection, wire) := task];
      }
    }
  }
}
