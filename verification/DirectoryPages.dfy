/** The parser for a page of directory records (`staging_cleanup.rs`): records
    of variable length, each naming the offset of the next. */
module DirectoryPages {
  import opened Prelude

  /** The layout of `FILE_ID_BOTH_DIR_INFO`. */
  const HEADER: nat := 112
  const ATTRIBUTES_AT: nat := 56
  const NAME_LENGTH_AT: nat := 60
  const NAME_AT: nat := 104
  const WORD: nat := 8

  type u16 = x: int | 0 <= x < 0x1_0000
  type u32 = x: int | 0 <= x <= U32_MAX

  const DOT: u16 := 46

  datatype Entry = Entry(name: seq<u16>, attributes: u32)

  datatype Fault = RecordCut | NameMalformed | OffsetMalformed

  datatype Result = Ok(entries: seq<Entry>) | Err(fault: Fault)

  // ----------------------------------------------------------------- reads

  /** A little-endian 32-bit field. */
  function U32At(page: seq<byte>, at: nat): u32
    requires at + 4 <= |page|
  {
    page[at] as int + 0x100 * (page[at + 1] as int) + 0x1_0000 * (page[at + 2] as int)
        + 0x100_0000 * (page[at + 3] as int)
  }

  /** A little-endian UTF-16 unit. */
  function U16At(page: seq<byte>, at: nat): u16
    requires at + 2 <= |page|
  {
    page[at] as int + 0x100 * (page[at + 1] as int)
  }

  function NameAt(page: seq<byte>, at: nat, units: nat): (name: seq<u16>)
    requires at + 2 * units <= |page|
    ensures |name| == units
  {
    seq(units, i requires 0 <= i < units => U16At(page, at + 2 * i))
  }

  /** Fields compare by their last byte first: the order of little-endian numbers. */
  lemma LastByteWeighsMost(a: seq<byte>, b: seq<byte>)
    requires |a| == |b| == 4
    ensures U32At(a, 0) < U32At(b, 0) <==> exists i :: 0 <= i < 4 && a[i] < b[i] && a[i + 1..] == b[i + 1..]
    ensures U16At(a, 0) < U16At(b, 0) <==> a[1] < b[1] || (a[1] == b[1] && a[0] < b[0])
  {
    assert a[4..] == b[4..];
    forall i | 0 <= i < 4 ensures a[i..] == b[i..] <==> a[i] == b[i] && a[i + 1..] == b[i + 1..] {
      assert a[i..] == [a[i]] + a[i + 1..] && b[i..] == [b[i]] + b[i + 1..];
    }
  }

  predicate IsDots(name: seq<u16>) {
    name == [DOT] || name == [DOT, DOT]
  }

  /** An entry unless it names the directory itself or its parent. */
  function Seen(entry: Entry): seq<Entry> {
    if IsDots(entry.name) then [] else [entry]
  }

  function Visible(entries: seq<Entry>): seq<Entry> {
    if entries == [] then [] else Seen(entries[0]) + Visible(entries[1..])
  }

  /** The units of an ASCII name. */
  function Units(name: string): seq<u16> {
    seq(|name|, i requires 0 <= i < |name| => name[i] as int % 0x1_0000)
  }

  /** Where the visible entries stand in the listing. */
  ghost function Places(entries: seq<Entry>): seq<nat> {
    if entries == [] then []
    else
      var n := |entries| - 1;
      if IsDots(entries[n].name) then Places(entries[..n]) else Places(entries[..n]) + [n]
  }

  lemma {:induction false} VisibleGrows(entries: seq<Entry>, last: Entry)
    ensures Visible(entries + [last]) == Visible(entries) + Seen(last)
  {
    if entries == [] {
      assert [last][1..] == [];
    } else {
      assert (entries + [last])[1..] == entries[1..] + [last];
      VisibleGrows(entries[1..], last);
    }
  }

  lemma {:induction false} PlacesRise(entries: seq<Entry>)
    ensures Rising(Places(entries), |entries|)
    decreases |entries|
  {
    if entries != [] {
      PlacesRise(entries[..|entries| - 1]);
      RisingGrows(Places(entries[..|entries| - 1]), |entries| - 1);
    }
  }

  lemma {:induction false} VisibleStandAt(entries: seq<Entry>)
    ensures var visible, places := Visible(entries), Places(entries);
            |visible| == |places| &&
            forall i :: 0 <= i < |places| ==> places[i] < |entries| && visible[i] == entries[places[i]]
    decreases |entries|
  {
    if entries != [] {
      var front := entries[..|entries| - 1];
      VisibleStandAt(front);
      VisibleGrows(front, entries[|front|]);
      assert front + [entries[|front|]] == entries;
    }
  }

  lemma {:induction false} PlacesOfOthers(entries: seq<Entry>, k: nat)
    requires k < |entries|
    ensures k in Places(entries) <==> !IsDots(entries[k].name)
    decreases |entries|
  {
    var front := entries[..|entries| - 1];
    PlacesRise(front);
    RisingGrows(Places(front), |front|);
    if k < |front| {
      PlacesOfOthers(front, k);
    }
  }

  /** What is left of a listing is, in its order, the entries that name neither the
      directory itself nor its parent. */
  lemma VisibleExactly(entries: seq<Entry>)
    ensures var visible, places := Visible(entries), Places(entries);
            && |visible| == |places| && Rising(places, |entries|)
            && (forall i :: 0 <= i < |places| ==> visible[i] == entries[places[i]])
            && (forall k: nat :: k < |entries| ==>
                  (k in places <==> entries[k].name != Units(".") && entries[k].name != Units("..")))
  {
    PlacesRise(entries);
    VisibleStandAt(entries);
    forall k: nat | k < |entries|
      ensures k in Places(entries) <==> entries[k].name != Units(".") && entries[k].name != Units("..")
    {
      PlacesOfOthers(entries, k);
      DotNames(entries[k].name);
    }
  }

  lemma DotNames(name: seq<u16>)
    ensures IsDots(name) <==> name == Units(".") || name == Units("..")
  {
    assert Units(".") == [DOT] && Units("..") == [DOT, DOT];
  }

  /** What a record offers: its entry and, unless it is the last, the distance to
      the next record. */
  datatype Look = Wrong(fault: Fault) | Last(entry: Entry) | Link(entry: Entry, next: nat)

  /** Whether a header and the name it announces lie inside the page. */
  predicate RecordFits(page: seq<byte>, at: nat) {
    && at + HEADER <= |page|
    && U32At(page, at + NAME_LENGTH_AT) % 2 == 0
    && at + NAME_AT + U32At(page, at + NAME_LENGTH_AT) <= |page|
  }

  function EntryAt(page: seq<byte>, at: nat): Entry
    requires RecordFits(page, at)
  {
    Entry(NameAt(page, at + NAME_AT, U32At(page, at + NAME_LENGTH_AT) / 2), U32At(page, at + ATTRIBUTES_AT))
  }

  /** A link is aligned, spans at least a header and stays inside the page. */
  predicate LinkFits(page: seq<byte>, at: nat, next: nat) {
    next >= HEADER && next % WORD == 0 && at + next <= |page|
  }

  function LookAt(page: seq<byte>, at: nat): (look: Look)
    ensures look.Link? ==> LinkFits(page, at, look.next)
  {
    if at + HEADER > |page| then Wrong(RecordCut)
    else if !RecordFits(page, at) then Wrong(NameMalformed)
    else if U32At(page, at) == 0 then Last(EntryAt(page, at))
    else if !LinkFits(page, at, U32At(page, at)) then Wrong(OffsetMalformed)
    else Link(EntryAt(page, at), U32At(page, at))
  }

  function Behind(entries: seq<Entry>, rest: Result): Result {
    if rest.Err? then rest else Ok(entries + rest.entries)
  }

  /** Looking never leads back or out of the page. */
  ghost predicate Forward(look: nat -> Look, size: nat) {
    forall at: nat :: look(at).Link? ==> look(at).next >= HEADER && at + look(at).next <= size
  }

  /** The records from an offset on, as they look. */
  function Follow(look: nat -> Look, at: nat, size: nat): Result
    requires Forward(look, size)
    decreases size - at
  {
    match look(at)
    case Wrong(fault) => Err(fault)
    case Last(entry) => Ok(Seen(entry))
    case Link(entry, next) => Behind(Seen(entry), Follow(look, at + next, size))
  }

  function Looks(page: seq<byte>): (look: nat -> Look)
    ensures Forward(look, |page|)
  {
    (at: nat) => LookAt(page, at)
  }

  function Parsed(page: seq<byte>): Result {
    Follow(Looks(page), 0, |page|)
  }

  lemma FollowBehind(look: nat -> Look, at: nat, size: nat, before: seq<Entry>)
    requires Forward(look, size)
    ensures Behind(before, Follow(look, at, size))
            == match look(at)
               case Wrong(fault) => Err(fault)
               case Last(entry) => Ok(before + Seen(entry))
               case Link(entry, next) => Behind(before + Seen(entry), Follow(look, at + next, size))
  {
    if look(at).Link? && Follow(look, at + look(at).next, size).Ok? {
      var rest := Follow(look, at + look(at).next, size).entries;
      assert before + (Seen(look(at).entry) + rest) == before + Seen(look(at).entry) + rest;
    }
  }

  ghost predicate LooksLike(page: seq<byte>, looks: nat -> Look) {
    Forward(looks, |page|) && forall at: nat :: LooksAlike(page, looks, at)
  }

  ghost predicate LooksAlike(page: seq<byte>, looks: nat -> Look, at: nat) {
    looks(at) == LookAt(page, at)
  }

  /** One record: its header and its name are read only once they are known to
      lie inside the page. */
  method ReadRecord(page: seq<byte>, offset: nat) returns (look: Look)
    ensures look == LookAt(page, offset)
  {
    if offset > |page| || |page| - offset < HEADER { return Wrong(RecordCut); }
    var next := U32At(page, offset);
    var nameLength := U32At(page, offset + NAME_LENGTH_AT);
    var attributes := U32At(page, offset + ATTRIBUTES_AT);
    var nameStart := offset + NAME_AT;
    if nameLength % 2 != 0 || nameStart > |page| || nameLength > |page| - nameStart {
      return Wrong(NameMalformed);
    }
    var entry := Entry(NameAt(page, nameStart, nameLength / 2), attributes);
    if next == 0 { return Last(entry); }
    if next < HEADER || next % WORD != 0 || next > |page| - offset {
      return Wrong(OffsetMalformed);
    }
    look := Link(entry, next);
  }

  /** `parse_windows_directory_page`. */
  method ParsePage(page: seq<byte>) returns (result: Result)
    ensures result == Parsed(page)
  {
    result := ReadRecords(page, Looks(page));
  }

  method LookInto(page: seq<byte>, offset: nat, ghost looks: nat -> Look) returns (look: Look)
    requires LooksLike(page, looks)
    ensures look == looks(offset)
  {
    look := ReadRecord(page, offset);
    assert LooksAlike(page, looks, offset);
  }

  /** The loop over the records: the offset grows by at least a header with every
      record. */
  method ReadRecords(page: seq<byte>, ghost looks: nat -> Look) returns (result: Result)
    requires LooksLike(page, looks)
    ensures result == Follow(looks, 0, |page|)
  {
    var offset := 0;
    var entries: seq<Entry> := [];
    while true
      invariant 0 <= offset <= |page|
      invariant Follow(looks, 0, |page|) == Behind(entries, Follow(looks, offset, |page|))
      decreases |page| - offset
    {
      FollowBehind(looks, offset, |page|, entries);
      var look := LookInto(page, offset, looks);
      if look.Wrong? { return Err(look.fault); }
      ghost var before := entries;
      if !IsDots(look.entry.name) { entries := entries + [look.entry]; }
      assert entries == before + Seen(look.entry);
      if look.Last? { return Ok(entries); }
      offset := offset + look.next;
    }
  }

  // ------------------------------------------------------- what is accepted

  /** The record at each offset is linked to the one at the next, and the last
      has no link. */
  ghost predicate IsTrail(look: nat -> Look, offsets: seq<nat>, entries: seq<Entry>) {
    && |offsets| == |entries| > 0
    && (forall i: nat :: i < |offsets| ==> IsStep(look, offsets, entries, i))
  }

  ghost predicate IsStep(look: nat -> Look, offsets: seq<nat>, entries: seq<Entry>, i: nat)
    requires i < |offsets| == |entries|
  {
    look(offsets[i]) == if i == |offsets| - 1 then Last(entries[i])
        else Link(entries[i], StepTo(offsets[i], offsets[i + 1]))
  }

  function StepTo(from: nat, to: nat): nat {
    SaturatingSub(to, from)
  }

  lemma TrailTail(look: nat -> Look, size: nat, offsets: seq<nat>, entries: seq<Entry>)
    requires Forward(look, size) && IsTrail(look, offsets, entries) && |offsets| > 1
    ensures IsTrail(look, offsets[1..], entries[1..])
    ensures offsets[0] + HEADER <= offsets[1] <= size
    ensures look(offsets[0]) == Link(entries[0], offsets[1] - offsets[0])
  {
    assert IsStep(look, offsets, entries, 0);
    forall i: nat | i < |offsets| - 1 ensures IsStep(look, offsets[1..], entries[1..], i) {
      assert IsStep(look, offsets, entries, i + 1);
    }
  }

  /** Following a trail yields its visible entries. */
  lemma {:induction false} TrailFollows(look: nat -> Look, size: nat, offsets: seq<nat>, entries: seq<Entry>)
    requires Forward(look, size) && IsTrail(look, offsets, entries)
    ensures Follow(look, offsets[0], size) == Ok(Visible(entries))
    decreases |offsets|
  {
    if |offsets| == 1 {
      assert IsStep(look, offsets, entries, 0);
      assert entries[1..] == [];
    } else {
      TrailTail(look, size, offsets, entries);
      TrailFollows(look, size, offsets[1..], entries[1..]);
    }
  }

  /** What follows to its end leaves a trail. */
  lemma {:induction false} FollowsTrail(look: nat -> Look, size: nat, at: nat)
    returns (offsets: seq<nat>, entries: seq<Entry>)
    requires Forward(look, size) && Follow(look, at, size).Ok?
    ensures IsTrail(look, offsets, entries) && offsets[0] == at
    decreases size - at
  {
    offsets, entries := [at], [look(at).entry];
    if look(at).Link? {
      var o, e := FollowsTrail(look, size, at + look(at).next);
      offsets, entries := offsets + o, entries + e;
      forall i: nat | i < |offsets| ensures IsStep(look, offsets, entries, i) {
        assert i > 0 ==> IsStep(look, o, e, i - 1);
      }
    }
  }

  /** The records of a page start at these offsets and have these entries: each
      header and name lies inside the page, each record links to the next by an
      aligned distance of at least a header, and the last has no link. */
  ghost predicate IsChain(page: seq<byte>, offsets: seq<nat>, entries: seq<Entry>) {
    && |offsets| == |entries| > 0 && offsets[0] == 0
    && (forall i: nat :: i < |offsets| ==> IsRecord(page, offsets, entries, i))
  }

  ghost predicate IsRecord(page: seq<byte>, offsets: seq<nat>, entries: seq<Entry>, i: nat)
    requires i < |offsets| == |entries|
  {
    var at := offsets[i];
    && RecordFits(page, at) && entries[i] == EntryAt(page, at)
    && if i == |offsets| - 1 then U32At(page, at) == 0
       else LinkFits(page, at, U32At(page, at)) && offsets[i + 1] == at + U32At(page, at)
  }

  lemma RecordIsStep(page: seq<byte>, offsets: seq<nat>, entries: seq<Entry>, i: nat)
    requires i < |offsets| == |entries|
    ensures IsRecord(page, offsets, entries, i) <==> IsStep(Looks(page), offsets, entries, i)
  {
  }

  lemma ChainIsTrail(page: seq<byte>, offsets: seq<nat>, entries: seq<Entry>)
    ensures IsChain(page, offsets, entries) <==> IsTrail(Looks(page), offsets, entries) && offsets[0] == 0
  {
    if |offsets| == |entries| > 0 {
      forall i: nat | i < |offsets|
        ensures IsRecord(page, offsets, entries, i) <==> IsStep(Looks(page), offsets, entries, i)
      {
        RecordIsStep(page, offsets, entries, i);
      }
    }
  }

  /** A page is accepted if and only if its records form a chain; it then yields
      the visible entries of the chain, which has at most |page| / 112 records. */
  lemma AcceptedIff(page: seq<byte>)
    ensures Parsed(page).Ok? <==> exists offsets, entries :: IsChain(page, offsets, entries)
    ensures forall offsets, entries :: IsChain(page, offsets, entries) ==>
              Parsed(page) == Ok(Visible(entries)) && HEADER * |offsets| <= |page|
  {
    var look := Looks(page);
    if Parsed(page).Ok? {
      var offsets, entries := FollowsTrail(look, |page|, 0);
      ChainIsTrail(page, offsets, entries);
    }
    forall offsets, entries | IsChain(page, offsets, entries)
      ensures Parsed(page) == Ok(Visible(entries)) && HEADER * |offsets| <= |page|
    {
      ChainIsTrail(page, offsets, entries);
      TrailFollows(look, |page|, offsets, entries);
      ChainInside(page, offsets, entries, |offsets| - 1);
    }
  }

  /** Every record starts at least a header behind the one before it. */
  lemma {:induction false} ChainInside(page: seq<byte>, offsets: seq<nat>, entries: seq<Entry>, i: nat)
    requires IsChain(page, offsets, entries) && i < |offsets|
    ensures HEADER * i <= offsets[i] && offsets[i] + HEADER <= |page|
  {
    assert IsRecord(page, offsets, entries, i);
    if i > 0 {
      ChainInside(page, offsets, entries, i - 1);
      assert IsRecord(page, offsets, entries, i - 1);
    }
  }

  /** Records linked one to the next from the start of the page; the last one is
      whatever stands there. */
  ghost predicate IsPath(page: seq<byte>, offsets: seq<nat>) {
    && offsets != []
    && (forall i: nat :: i < |offsets| - 1 ==> IsLink(page, offsets[i], offsets[i + 1]))
  }

  ghost predicate IsLink(page: seq<byte>, at: nat, next: nat) {
    RecordFits(page, at) && U32At(page, at) != 0 && LinkFits(page, at, U32At(page, at)) && next == at + U32At(page, at)
  }

  /** What is wrong with a record: too little page for a header, a name of half a unit
      or one that does not fit, or a link that does not fit behind a sound name. */
  ghost predicate IsFault(page: seq<byte>, at: nat, fault: Fault) {
    match fault
    case RecordCut => at + HEADER > |page|
    case NameMalformed => at + HEADER <= |page| && !RecordFits(page, at)
    case OffsetMalformed => RecordFits(page, at) && U32At(page, at) != 0 && !LinkFits(page, at, U32At(page, at))
  }

  lemma {:induction false} PathFollows(page: seq<byte>, offsets: seq<nat>)
    requires IsPath(page, offsets)
    ensures var last := Follow(Looks(page), offsets[|offsets| - 1], |page|);
            forall fault :: Follow(Looks(page), offsets[0], |page|) == Err(fault) <==> last == Err(fault)
    decreases |offsets|
  {
    if |offsets| > 1 {
      assert IsLink(page, offsets[0], offsets[1]);
      PathFollows(page, offsets[1..]);
    }
  }

  lemma {:induction false} PathToFault(page: seq<byte>, at: nat) returns (offsets: seq<nat>)
    requires Follow(Looks(page), at, |page|).Err?
    ensures IsPath(page, offsets) && offsets[0] == at
    ensures IsFault(page, offsets[|offsets| - 1], Follow(Looks(page), at, |page|).fault)
    decreases |page| - at
  {
    offsets := [at];
    if LookAt(page, at).Link? {
      var rest := PathToFault(page, at + LookAt(page, at).next);
      offsets := offsets + rest;
      forall i: nat | i < |offsets| - 1 ensures IsLink(page, offsets[i], offsets[i + 1]) {
        assert i > 0 ==> IsLink(page, rest[i - 1], rest[i]);
      }
    }
  }

  ghost predicate LeadsTo(page: seq<byte>, offsets: seq<nat>, fault: Fault) {
    IsPath(page, offsets) && offsets[0] == 0 && IsFault(page, offsets[|offsets| - 1], fault)
  }

  /** A page is refused with a fault if and only if a path from its start leads to a
      record that has this fault. */
  lemma RefusedIff(page: seq<byte>, fault: Fault)
    ensures Parsed(page) == Err(fault) <==> exists offsets :: LeadsTo(page, offsets, fault)
  {
    if Parsed(page) == Err(fault) {
      var offsets := PathToFault(page, 0);
      assert LeadsTo(page, offsets, fault);
    }
    if offsets :| LeadsTo(page, offsets, fault) {
      PathFollows(page, offsets);
      assert LookAt(page, offsets[|offsets| - 1]) == Wrong(fault);
    }
  }

  // ------------------------------------------------------------ round trip

  /** A record to encode: its entry, the bytes of the fields that are not read,
      and the bytes behind its name. */
  datatype Record = Record(entry: Entry, times: seq<byte>, rest: seq<byte>, padding: seq<byte>) {
    predicate Valid() {
      && |times| == ATTRIBUTES_AT - 4 && |rest| == NAME_AT - NAME_LENGTH_AT - 4
      && HEADER <= Size() <= U32_MAX
    }

    function Size(): nat {
      NAME_AT + 2 * |entry.name| + |padding|
    }
  }

  function U32Bytes(x: u32): seq<byte> {
    [x % 0x100, x / 0x100 % 0x100, x / 0x1_0000 % 0x100, x / 0x100_0000]
  }

  function NameBytes(name: seq<u16>): (bytes: seq<byte>)
    ensures |bytes| == 2 * |name|
  {
    seq(2 * |name|, i requires 0 <= i < 2 * |name| => if i % 2 == 0 then name[i / 2] % 0x100 else name[i / 2] / 0x100)
  }

  function RecordBytes(record: Record, next: u32): (bytes: seq<byte>)
    requires record.Valid()
    ensures |bytes| == record.Size()
  {
    U32Bytes(next) + record.times + U32Bytes(record.entry.attributes) + U32Bytes(2 * |record.entry.name|)
    + record.rest + NameBytes(record.entry.name) + record.padding
  }

  /** Every record is valid, and all but the last end at an aligned offset. */
  predicate Encodable(records: seq<Record>) {
    && records != []
    && (forall i :: 0 <= i < |records| ==> records[i].Valid())
    && (forall i :: 0 <= i < |records| - 1 ==> records[i].Size() % WORD == 0)
  }

  /** The distance to the next record; the last record names none. */
  function NextOf(records: seq<Record>, i: nat): u32
    requires Encodable(records) && i < |records|
  {
    if i == |records| - 1 then 0 else records[i].Size()
  }

  /** The records one by one. */
  function Parts(records: seq<Record>): (parts: seq<seq<byte>>)
    requires Encodable(records)
    ensures |parts| == |records|
  {
    seq(|records|, i requires 0 <= i < |records| => RecordBytes(records[i], NextOf(records, i)))
  }

  function Joined(parts: seq<seq<byte>>, i: nat): seq<byte>
    requires i <= |parts|
    decreases |parts| - i
  {
    if i == |parts| then [] else parts[i] + Joined(parts, i + 1)
  }

  /** Where the i-th part starts. */
  function SizeBefore(parts: seq<seq<byte>>, i: nat): nat
    requires i <= |parts|
  {
    if i == 0 then 0 else SizeBefore(parts, i - 1) + |parts[i - 1]|
  }

  /** A page as the system fills it in. */
  function EncodePage(records: seq<Record>): seq<byte>
    requires Encodable(records)
  {
    Joined(Parts(records), 0)
  }

  lemma Digits(x: u32)
    ensures x % 0x100 + 0x100 * (x / 0x100 % 0x100) + 0x1_0000 * (x / 0x1_0000 % 0x100)
            + 0x100_0000 * (x / 0x100_0000) == x
  {
    assert x / 0x100 / 0x100 == x / 0x1_0000 && x / 0x1_0000 / 0x100 == x / 0x100_0000;
  }

  lemma U32RoundTrip(x: u32, page: seq<byte>, at: nat)
    requires at + 4 <= |page| && page[at..at + 4] == U32Bytes(x)
    ensures U32At(page, at) == x
  {
    var field := page[at..at + 4];
    assert page[at] == field[0] && page[at + 1] == field[1] && page[at + 2] == field[2] && page[at + 3] == field[3];
    Digits(x);
  }

  lemma NameRoundTrip(name: seq<u16>, page: seq<byte>, at: nat)
    requires at + 2 * |name| <= |page| && page[at..at + 2 * |name|] == NameBytes(name)
    ensures NameAt(page, at, |name|) == name
  {
    forall i | 0 <= i < |name| ensures NameAt(page, at, |name|)[i] == name[i] {
      assert page[at + 2 * i] == page[at..at + 2 * |name|][2 * i] == NameBytes(name)[2 * i];
      assert page[at + 2 * i + 1] == page[at..at + 2 * |name|][2 * i + 1] == NameBytes(name)[2 * i + 1];
    }
  }

  /** A part of the page is found where the parts before it end. */
  lemma PartOf(page: seq<byte>, a: seq<byte>, b: seq<byte>, c: seq<byte>, at: nat)
    requires page == a + (b + c) && at == |a|
    ensures at + |b| <= |page| && page[at..at + |b|] == b
  {
  }

  lemma Regroup(a: seq<byte>, b: seq<byte>, c: seq<byte>)
    ensures a + (b + c) == (a + b) + c
  {
  }

  /** A record with the fields up to its name, cut where one of them starts. */
  lemma FieldsReadBack(page: seq<byte>, prefix: seq<byte>, record: Record, next: u32, tail: seq<byte>)
    requires record.Valid() && page == prefix + (RecordBytes(record, next) + tail)
    ensures var at := |prefix|;
            && at + record.Size() <= |page|
            && U32At(page, at) == next
            && U32At(page, at + ATTRIBUTES_AT) == record.entry.attributes
            && U32At(page, at + NAME_LENGTH_AT) == 2 * |record.entry.name|
            && NameAt(page, at + NAME_AT, |record.entry.name|) == record.entry.name
  {
    var at, bytes := |prefix|, RecordBytes(record, next);
    PartOf(page, prefix, bytes, tail, at);
    FieldBytes(record, next);
    SubPart(page, bytes, at, 0, 4);
    U32RoundTrip(next, page, at);
    SubPart(page, bytes, at, ATTRIBUTES_AT, 4);
    U32RoundTrip(record.entry.attributes, page, at + ATTRIBUTES_AT);
    SubPart(page, bytes, at, NAME_LENGTH_AT, 4);
    U32RoundTrip(2 * |record.entry.name|, page, at + NAME_LENGTH_AT);
    SubPart(page, bytes, at, NAME_AT, 2 * |record.entry.name|);
    NameRoundTrip(record.entry.name, page, at + NAME_AT);
  }

  lemma SubPart(page: seq<byte>, bytes: seq<byte>, at: nat, from: nat, size: nat)
    requires at + |bytes| <= |page| && from + size <= |bytes|
    requires page[at..at + |bytes|] == bytes
    ensures page[at + from..at + from + size] == bytes[from..from + size]
  {
    var found, sought := page[at + from..at + from + size], bytes[from..from + size];
    forall i | 0 <= i < size ensures found[i] == sought[i] {
      assert sought[i] == page[at..at + |bytes|][from + i] == page[at + (from + i)];
    }
  }

  lemma FieldBytes(record: Record, next: u32)
    requires record.Valid()
    ensures var bytes, n := RecordBytes(record, next), |record.entry.name|;
            && bytes[0..4] == U32Bytes(next)
            && bytes[ATTRIBUTES_AT..ATTRIBUTES_AT + 4] == U32Bytes(record.entry.attributes)
            && bytes[NAME_LENGTH_AT..NAME_LENGTH_AT + 4] == U32Bytes(2 * n)
            && bytes[NAME_AT..NAME_AT + 2 * n] == NameBytes(record.entry.name)
  {
  }

  /** The looks of an encoded record. */
  lemma LooksBack(page: seq<byte>, prefix: seq<byte>, record: Record, next: u32, tail: seq<byte>)
    requires record.Valid() && page == prefix + (RecordBytes(record, next) + tail)
    requires next == 0 || (next == record.Size() && next % WORD == 0)
    ensures LookAt(page, |prefix|) == if next == 0 then Last(record.entry) else Link(record.entry, next)
  {
    EntryReadsBack(page, prefix, record, next, tail);
    assert next != 0 ==> LinkFits(page, |prefix|, next);
  }

  lemma EntryReadsBack(page: seq<byte>, prefix: seq<byte>, record: Record, next: u32, tail: seq<byte>)
    requires record.Valid() && page == prefix + (RecordBytes(record, next) + tail)
    ensures RecordFits(page, |prefix|) && U32At(page, |prefix|) == next && |prefix| + record.Size() <= |page|
    ensures EntryAt(page, |prefix|) == record.entry
  {
    FieldsReadBack(page, prefix, record, next, tail);
    assert U32At(page, |prefix| + NAME_LENGTH_AT) / 2 == |record.entry.name|;
  }

  /** What is joined falls into what precedes the i-th part and what starts with
      it. */
  lemma {:induction false} JoinedSplits(parts: seq<seq<byte>>, i: nat) returns (prefix: seq<byte>)
    requires i <= |parts|
    ensures |prefix| == SizeBefore(parts, i)
    ensures Joined(parts, 0) == prefix + Joined(parts, i)
  {
    if i == 0 {
      prefix := [];
    } else {
      var before := JoinedSplits(parts, i - 1);
      Regroup(before, parts[i - 1], Joined(parts, i));
      prefix := before + parts[i - 1];
    }
  }

  lemma EncodedLook(records: seq<Record>, i: nat)
    requires Encodable(records) && i < |records|
    ensures LookAt(EncodePage(records), SizeBefore(Parts(records), i))
            == if i == |records| - 1 then Last(records[i].entry) else Link(records[i].entry, records[i].Size())
  {
    var parts := Parts(records);
    var prefix := JoinedSplits(parts, i);
    LooksBack(EncodePage(records), prefix, records[i], NextOf(records, i), Joined(parts, i + 1));
  }

  ghost function Listed(records: seq<Record>): (entries: seq<Entry>)
    ensures |entries| == |records|
  {
    seq(|records|, i requires 0 <= i < |records| => records[i].entry)
  }

  ghost function Offsets(records: seq<Record>): (offsets: seq<nat>)
    requires Encodable(records)
    ensures |offsets| == |records|
  {
    seq(|records|, i requires 0 <= i < |records| => SizeBefore(Parts(records), i))
  }

  lemma EncodedStep(records: seq<Record>, i: nat)
    requires Encodable(records) && i < |records|
    ensures IsStep(Looks(EncodePage(records)), Offsets(records), Listed(records), i)
  {
    EncodedLook(records, i);
    OffsetsStep(records, i);
  }

  lemma OffsetsStep(records: seq<Record>, i: nat)
    requires Encodable(records) && i < |records|
    ensures Offsets(records)[i] == SizeBefore(Parts(records), i)
    ensures i < |records| - 1 ==> StepTo(Offsets(records)[i], Offsets(records)[i + 1]) == records[i].Size()
  {
  }

  /** Parsing an encoded directory yields its entries in order, without the two
      that name the directory itself and its parent. */
  lemma RoundTrip(records: seq<Record>)
    requires Encodable(records)
    ensures Parsed(EncodePage(records)) == Ok(Visible(Listed(records)))
  {
    var page := EncodePage(records);
    forall i: nat | i < |records| ensures IsStep(Looks(page), Offsets(records), Listed(records), i) {
      EncodedStep(records, i);
    }
    TrailFollows(Looks(page), |page|, Offsets(records), Listed(records));
  }
}
