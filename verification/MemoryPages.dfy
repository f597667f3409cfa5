/** The memory view's pages (`setup.rs`): at most twenty entries and a byte
    budget per page, a cursor line to ask for the next page, and a first line
    capped at a character boundary. */
module MemoryPages {
  import opened Prelude

  const PAGE_SIZE: nat := 20
  const BODY_BUDGET: nat := 192 * 1024
  const NEWLINE: byte := 10

  // ----------------------------------------------------------------- text

  type Scalar = x: int | 0 <= x < 0xD800 || 0xE000 <= x < 0x11_0000

  /** The UTF-8 form of one character (section 3 of RFC 3629). */
  function Encode(c: Scalar): (r: seq<byte>)
    ensures 1 <= |r| <= 4
  {
    if c < 0x80 then [c]
    else if c < 0x800 then [0xC0 + c / 64, 0x80 + c % 64]
    else if c < 0x1_0000 then [0xE0 + c / 4096, 0x80 + c / 64 % 64, 0x80 + c % 64]
    else [0xF0 + c / 262144, 0x80 + c / 4096 % 64, 0x80 + c / 64 % 64, 0x80 + c % 64]
  }

  function Utf8(text: seq<Scalar>): seq<byte> {
    if text == [] then [] else Encode(text[0]) + Utf8(text[1..])
  }

  predicate IsContinuation(b: byte) {
    0x80 <= b < 0xC0
  }

  /** `str::is_char_boundary`. */
  predicate IsCharBoundary(bytes: seq<byte>, at: nat) {
    at == 0 || (if at < |bytes| then !IsContinuation(bytes[at]) else at == |bytes|)
  }

  /** How many leading characters fit into `cap` bytes. */
  function Fitting(text: seq<Scalar>, cap: nat): (k: nat)
    ensures k <= |text|
  {
    if text == [] || |Encode(text[0])| > cap then 0 else 1 + Fitting(text[1..], cap - |Encode(text[0])|)
  }

  /** The last character boundary up to `end`. */
  function CutAt(bytes: seq<byte>, end: nat): (cut: nat)
    ensures cut <= end
  {
    if IsCharBoundary(bytes, end) then end else CutAt(bytes, end - 1)
  }

  lemma {:induction false} CutIsLastBoundary(bytes: seq<byte>, end: nat)
    ensures IsCharBoundary(bytes, CutAt(bytes, end))
    ensures forall at :: CutAt(bytes, end) < at <= end ==> !IsCharBoundary(bytes, at)
  {
    if !IsCharBoundary(bytes, end) {
      CutIsLastBoundary(bytes, end - 1);
    }
  }

  /** The line itself when it fits, else what precedes the last character boundary
      within the cap, and a newline. */
  function Capped(line: seq<byte>, cap: nat): (capped: seq<byte>)
    ensures |capped| <= cap + 1
  {
    if |line| <= cap then line else line[..CutAt(line, cap)] + [NEWLINE]
  }

  /** The characters kept fit, and one more would not. */
  lemma {:induction false} FittingIsMost(text: seq<Scalar>, cap: nat)
    ensures var k := Fitting(text, cap);
            |Utf8(text[..k])| <= cap && (k < |text| ==> |Utf8(text[..k + 1])| > cap)
  {
    if text != [] && |Encode(text[0])| <= cap {
      var k := Fitting(text[1..], cap - |Encode(text[0])|);
      FittingIsMost(text[1..], cap - |Encode(text[0])|);
      assert text[..k + 1][1..] == text[1..][..k];
      if k + 1 < |text| {
        assert text[..k + 2][1..] == text[1..][..k + 1];
      }
    } else if text != [] {
      assert text[..1] == [text[0]];
    }
  }

  lemma EncodeShape(c: Scalar)
    ensures !IsContinuation(Encode(c)[0])
    ensures forall i :: 1 <= i < |Encode(c)| ==> IsContinuation(Encode(c)[i])
  {
  }

  lemma {:induction false} Utf8Splits(text: seq<Scalar>, k: nat)
    requires k <= |text|
    ensures Utf8(text) == Utf8(text[..k]) + Utf8(text[k..])
  {
    if k > 0 {
      Utf8Splits(text[1..], k - 1);
      assert text[..k][1..] == text[1..][..k - 1];
      assert text[1..][k - 1..] == text[k..];
    } else {
      assert text[..0] == [] && text[0..] == text;
    }
  }

  lemma FittingTail(text: seq<Scalar>, cap: nat)
    requires text != [] && |Encode(text[0])| <= cap
    ensures var head, rest := Encode(text[0]), text[1..];
            |Utf8(text[..Fitting(text, cap)])| == |head| + |Utf8(rest[..Fitting(rest, cap - |head|)])|
  {
    var k := Fitting(text[1..], cap - |Encode(text[0])|);
    assert text[..k + 1][1..] == text[1..][..k];
  }

  /** Between the end of the characters that fit and the cap, the former is the
      only character boundary. */
  lemma {:induction false} LastBoundary(text: seq<Scalar>, cap: nat, at: nat)
    requires |Utf8(text)| > cap && |Utf8(text[..Fitting(text, cap)])| <= at <= cap
    ensures IsCharBoundary(Utf8(text), at) <==> at == |Utf8(text[..Fitting(text, cap)])|
  {
    var head, bytes := Encode(text[0]), Utf8(text);
    EncodeShape(text[0]);
    if |head| > cap {
      assert at < |head| && bytes[at] == head[at];
    } else {
      FittingTail(text, cap);
      LastBoundary(text[1..], cap - |head|, at - |head|);
      assert bytes[at] == Utf8(text[1..])[at - |head|];
      if at == |head| {
        EncodeShape(text[1]);
        assert bytes[at] == Encode(text[1])[0];
      }
    }
  }

  /** A line that is too long keeps a whole number of its characters: those that
      fit within the cap. */
  lemma CapKeepsCharacters(text: seq<Scalar>, cap: nat)
    requires |Utf8(text)| > cap
    ensures Capped(Utf8(text), cap) == Utf8(text[..Fitting(text, cap)]) + [NEWLINE]
  {
    var bytes, kept := Utf8(text), text[..Fitting(text, cap)];
    FittingIsMost(text, cap);
    CutIsLastBoundary(bytes, cap);
    LastBoundary(text, cap, |Utf8(kept)|);
    LastBoundary(text, cap, CutAt(bytes, cap));
    Utf8Splits(text, Fitting(text, cap));
    assert bytes[..|Utf8(kept)|] == Utf8(kept);
  }

  /** `capped_line`. */
  method CappedLine(line: seq<byte>, cap: nat) returns (capped: seq<byte>)
    ensures capped == Capped(line, cap)
  {
    if |line| <= cap { return line; }
    var end := cap;
    while !IsCharBoundary(line, end)
      invariant 0 <= end <= cap && CutAt(line, cap) == CutAt(line, end)
      decreases end
    {
      end := end - 1;
    }
    capped := line[..end] + [NEWLINE];
  }

  // ----------------------------------------------------------- the listing

  /** A memory or a revision, with the line it renders to and whether that line
      delivers any of its text. */
  datatype Entry = Entry(id: nat, line: seq<byte>, delivered: bool)

  /** What the store lists: the memories of one companion newest first, or the
      revisions of one memory in the order of their numbers. `rows` are the row
      numbers of all memories of the store, of other companions too. */
  datatype Shelf = Memories(entries: seq<Entry>, rows: map<nat, nat>) | Revisions(entries: seq<Entry>) {

    /** Row numbers fall along the memories; revision numbers start at one and
        rise. */
    ghost predicate Valid() {
      match this
      case Memories(_, _) => (forall i :: 0 <= i < |entries| ==> entries[i].id in rows)
                             && forall i, j :: 0 <= i < j < |entries| ==> rows[entries[j].id] < rows[entries[i].id]
      case Revisions(_) => (forall i :: 0 <= i < |entries| ==> entries[i].id > 0)
                           && forall i, j :: 0 <= i < j < |entries| ==> entries[i].id < entries[j].id
    }

    /** Whether the cursor asks for a later page; revision zero does not. */
    predicate Continues(cursor: Option<nat>) {
      cursor.Some? && (Memories? || cursor.value > 0)
    }

    /** The condition of the store's query: an older memory than the one the cursor
        names, of whichever companion that is, or a later revision. */
    predicate IsBehind(entry: Entry, cursor: nat) {
      match this
      case Memories(_, rows) => cursor in rows && entry.id in rows && rows[entry.id] < rows[cursor]
      case Revisions(_) => entry.id > cursor
    }

    function FirstBehind(cursor: nat, from: nat): (start: nat)
      requires from <= |entries|
      ensures from <= start <= |entries|
      decreases |entries| - from
    {
      if from == |entries| || IsBehind(entries[from], cursor) then from else FirstBehind(cursor, from + 1)
    }

    /** Where the entries behind the cursor start. */
    function Start(cursor: Option<nat>): (start: nat)
      ensures start <= |entries|
    {
      if Continues(cursor) then FirstBehind(cursor.value, 0) else 0
    }

    function Listed(cursor: Option<nat>): seq<Entry> {
      entries[Start(cursor)..Min(Start(cursor) + PAGE_SIZE + 1, |entries|)]
    }

    /** A memory's line gets a newline of its own; a revision's piece has one. */
    function Separator(): seq<byte> {
      if Memories? then [NEWLINE] else []
    }
  }

  // ------------------------------------------------------------- one page

  /** What an entry adds to a page: its line, capped when the page starts with it. */
  function LineFor(entry: Entry, first: bool): seq<byte> {
    if first then Capped(entry.line, BODY_BUDGET - 1) else entry.line
  }

  /** The texts the entries contribute: only the page's first line is capped. */
  function Lines(listed: seq<Entry>): (lines: seq<seq<byte>>)
    ensures |lines| == |listed|
  {
    seq(|listed|, i requires 0 <= i < |listed| => LineFor(listed[i], i == 0))
  }

  /** The first `n` lines. */
  function Body(lines: seq<seq<byte>>, n: nat, separator: seq<byte>): seq<byte>
    requires n <= |lines|
  {
    if n == 0 then [] else Body(lines, n - 1, separator) + lines[n - 1] + separator
  }

  /** How many lines the page has once it has `n` of them in `used` bytes. */
  function Extend(lines: seq<seq<byte>>, n: nat, used: nat, gap: nat): (count: nat)
    requires n <= |lines| && n <= PAGE_SIZE
    ensures n <= count <= |lines| && count <= PAGE_SIZE
    ensures n == 0 < |lines| ==> count > 0
    decreases |lines| - n
  {
    if n < |lines| && n < PAGE_SIZE && (n == 0 || used + |lines[n]| <= BODY_BUDGET)
    then Extend(lines, n + 1, used + |lines[n]| + gap, gap)
    else n
  }

  /** Lines are added as long as they fit, and no longer. */
  lemma {:induction false} ExtendIsGreedy(lines: seq<seq<byte>>, n: nat, separator: seq<byte>)
    requires 0 < n <= |lines| && n <= PAGE_SIZE && |Body(lines, n, separator)| <= BODY_BUDGET + |separator|
    ensures var count := Extend(lines, n, |Body(lines, n, separator)|, |separator|);
            && |Body(lines, count, separator)| <= BODY_BUDGET + |separator|
            && (count < |lines| && count < PAGE_SIZE ==> |Body(lines, count, separator)| + |lines[count]| > BODY_BUDGET)
    decreases |lines| - n
  {
    var used := |Body(lines, n, separator)|;
    if n < |lines| && n < PAGE_SIZE && used + |lines[n]| <= BODY_BUDGET {
      assert |Body(lines, n + 1, separator)| == used + |lines[n]| + |separator|;
      ExtendIsGreedy(lines, n + 1, separator);
    }
  }

  lemma ExtendUnfolds(lines: seq<seq<byte>>, n: nat, used: nat, gap: nat)
    requires n < |lines| && n < PAGE_SIZE && (n == 0 || used + |lines[n]| <= BODY_BUDGET)
    ensures Extend(lines, n, used, gap) == Extend(lines, n + 1, used + |lines[n]| + gap, gap)
  {
  }

  function Rendered(lines: seq<seq<byte>>, separator: seq<byte>): (count: nat)
    ensures count <= |lines| && count <= PAGE_SIZE && (lines != [] ==> count > 0)
  {
    Extend(lines, 0, 0, |separator|)
  }

  /** Whether one of the first `n` entries delivers its text. */
  predicate Delivers(listed: seq<Entry>, n: nat)
    requires n <= |listed|
  {
    n > 0 && (Delivers(listed, n - 1) || listed[n - 1].delivered)
  }

  datatype Answer =
    | Unavailable
    | InvalidCursor
    | Nothing
    | NothingMore
    | Page(body: seq<byte>, delivered: bool, next: Option<nat>)

  function PageOf(listed: seq<Entry>, separator: seq<byte>): Answer
    requires listed != []
  {
    var lines := Lines(listed);
    var n := Rendered(lines, separator);
    Page(Body(lines, n, separator), Delivers(listed, n), if n < |listed| then Some(listed[n - 1].id) else None)
  }

  /** The answer to a request with a readable cursor. */
  function Answered(shelf: Shelf, cursor: Option<nat>): Answer {
    if shelf.Listed(cursor) == [] then (if shelf.Continues(cursor) then NothingMore else Nothing)
    else PageOf(shelf.Listed(cursor), shelf.Separator())
  }

  ghost predicate AreLines(listed: seq<Entry>, lines: seq<seq<byte>>) {
    |lines| == |listed| && forall i: nat :: i < |listed| ==> IsLine(listed, lines, i)
  }

  ghost predicate IsLine(listed: seq<Entry>, lines: seq<seq<byte>>, i: nat)
    requires i < |listed| == |lines|
  {
    lines[i] == LineFor(listed[i], i == 0)
  }

  lemma LinesAreLines(listed: seq<Entry>)
    ensures AreLines(listed, Lines(listed))
  {
  }

  method RenderLine(listed: seq<Entry>, i: nat, ghost lines: seq<seq<byte>>) returns (line: seq<byte>)
    requires AreLines(listed, lines) && i < |listed|
    ensures line == lines[i]
  {
    line := listed[i].line;
    if i == 0 {
      line := CappedLine(line, SaturatingSub(BODY_BUDGET, 1));
    }
    assert IsLine(listed, lines, i);
  }

  /** The rendering loop, which the two pages share: the lines go into the body
      until one does not fit. */
  method RenderLines(listed: seq<Entry>, separator: seq<byte>, ghost lines: seq<seq<byte>>)
    returns (body: seq<byte>, delivered: bool, rendered: nat)
    requires AreLines(listed, lines)
    ensures rendered == Rendered(lines, separator) && body == Body(lines, rendered, separator)
    ensures delivered == Delivers(listed, rendered)
  {
    body, delivered, rendered := [], false, 0;
    while rendered < |listed| && rendered < PAGE_SIZE
      invariant rendered <= |lines| && rendered <= PAGE_SIZE
      invariant body == Body(lines, rendered, separator)
      invariant delivered == Delivers(listed, rendered)
      invariant Extend(lines, rendered, |body|, |separator|) == Rendered(lines, separator)
    {
      var line := RenderLine(listed, rendered, lines);
      if rendered > 0 && |body| + |line| > BODY_BUDGET { return; }
      ExtendUnfolds(lines, rendered, |body|, |separator|);
      body := body + line + separator;
      delivered := delivered || listed[rendered].delivered;
      rendered := rendered + 1;
    }
  }

  /** The page with its cursor line and whether it delivers any text. */
  method RenderEntries(listed: seq<Entry>, separator: seq<byte>) returns (page: Answer)
    requires listed != []
    ensures page == PageOf(listed, separator)
  {
    LinesAreLines(listed);
    var body, delivered, rendered := RenderLines(listed, separator, Lines(listed));
    page := Page(body, delivered, if rendered < |listed| then Some(listed[rendered - 1].id) else None);
  }

  // ------------------------------------------------------- the text shown

  function Ascii(s: string): (bytes: seq<byte>)
    ensures |bytes| == |s|
  {
    seq(|s|, i requires 0 <= i < |s| => s[i] as int % 256)
  }

  /** The characters that `str::trim_end` removes. */
  predicate IsWhite(c: Scalar) {
    || 9 <= c <= 13 || c == 0x20 || c == 0x85 || c == 0xA0 || c == 0x1680 || 0x2000 <= c <= 0x200A
    || c == 0x2028 || c == 0x2029 || c == 0x202F || c == 0x205F || c == 0x3000
  }

  /** The length of the white character that ends the bytes, zero if none does. */
  function WhiteAtEnd(bytes: seq<byte>): (n: nat)
    ensures n <= |bytes|
  {
    var last := if bytes == [] then 0 else bytes[|bytes| - 1];
    if bytes != [] && (9 <= last <= 13 || last == 0x20) then 1
    else if |bytes| >= 2 && bytes[|bytes| - 2] == 0xC2 && (last == 0x85 || last == 0xA0) then 2
    else if |bytes| >= 3 && IsWhiteTriple(bytes[|bytes| - 3], bytes[|bytes| - 2], last) then 3
    else 0
  }

  predicate IsWhiteTriple(a: byte, b: byte, c: byte) {
    || (a == 0xE1 && b == 0x9A && c == 0x80)
    || (a == 0xE2 && b == 0x80 && (0x80 <= c <= 0x8A || c == 0xA8 || c == 0xA9 || c == 0xAF))
    || (a == 0xE2 && b == 0x81 && c == 0x9F)
    || (a == 0xE3 && b == 0x80 && c == 0x80)
  }

  function TrimEnd(bytes: seq<byte>): seq<byte>
    decreases |bytes|
  {
    if WhiteAtEnd(bytes) == 0 then bytes else TrimEnd(bytes[..|bytes| - WhiteAtEnd(bytes)])
  }

  /** The fixed words of one of the two views. */
  datatype Words = Words(nothing: string, nothingMore: string, next: string)

  const MEMORY_WORDS := Words("(none)", "no older memories", "next: ")
  const REVISION_WORDS := Words("unknown memory", "no more revisions", "next-revision: ")

  /** The cursor line; `name` writes an id, a UUID or a decimal number. */
  function CursorLine(words: Words, name: nat -> seq<byte>, next: Option<nat>): seq<byte> {
    if next.Some? then Ascii(words.next) + name(next.value) + [NEWLINE] else []
  }

  function TextOf(answer: Answer, words: Words, name: nat -> seq<byte>): seq<byte> {
    match answer
    case Unavailable => Ascii("unavailable")
    case InvalidCursor => Ascii("invalid cursor")
    case Nothing => Ascii(words.nothing)
    case NothingMore => Ascii(words.nothingMore)
    case Page(body, _, next) => TrimEnd(body + CursorLine(words, name, next))
  }

  function MemoryAnswer(running: bool, after: Option<Option<nat>>, store: Option<seq<Entry>>,
                        rows: map<nat, nat>): Answer {
    if !running then Unavailable
    else if after == Some(None) then InvalidCursor
    else if store.None? then Unavailable
    else Answered(Memories(store.value, rows), if after.Some? then after.value else None)
  }

  function RevisionAnswer(readable: bool, after: Option<nat>, store: Option<seq<Entry>>): Answer {
    if !readable then InvalidCursor else if store.None? then Unavailable else Answered(Revisions(store.value), after)
  }

  /** What both views do once the store has answered. */
  method RenderPage(shelf: Shelf, cursor: Option<nat>, words: Words, name: nat -> seq<byte>)
    returns (text: seq<byte>, delivered: bool)
    ensures var answer := Answered(shelf, cursor);
            text == TextOf(answer, words, name) && (delivered <==> answer.Page? && answer.delivered)
  {
    var listed := shelf.Listed(cursor);
    if listed == [] {
      return Ascii(if shelf.Continues(cursor) then words.nothingMore else words.nothing), false;
    }
    var page := RenderEntries(listed, shelf.Separator());
    return TrimEnd(page.body + CursorLine(words, name, page.next)), page.delivered;
  }

  /** A memory page: an unreadable cursor is `Some(None)`, a failing store `None`. */
  method RenderMemoryList(running: bool, after: Option<Option<nat>>, store: Option<seq<Entry>>, rows: map<nat, nat>,
                          name: nat -> seq<byte>)
    returns (text: seq<byte>, delivered: bool)
    ensures var answer := MemoryAnswer(running, after, store, rows);
            text == TextOf(answer, MEMORY_WORDS, name) && (delivered <==> answer.Page? && answer.delivered)
  {
    if !running { return Ascii("unavailable"), false; }
    var cursor: Option<nat> := None;
    match after {
      case Some(Some(id)) => cursor := Some(id);
      case Some(None) => return Ascii("invalid cursor"), false;
      case None =>
    }
    if store.None? { return Ascii("unavailable"), false; }
    text, delivered := RenderPage(Memories(store.value, rows), cursor, MEMORY_WORDS, name);
  }

  method RenderRevisionPage(readable: bool, after: Option<nat>, store: Option<seq<Entry>>, name: nat -> seq<byte>)
    returns (text: seq<byte>, delivered: bool)
    ensures var answer := RevisionAnswer(readable, after, store);
            text == TextOf(answer, REVISION_WORDS, name) && (delivered <==> answer.Page? && answer.delivered)
  {
    if !readable { return Ascii("invalid cursor"), false; }
    var cursor := if after.Some? && after.value > 0 then after else None;
    if store.None? { return Ascii("unavailable"), false; }
    text, delivered := RenderPage(Revisions(store.value), cursor, REVISION_WORDS, name);
  }

  /** Bytes that are printable ASCII and not blank, as a UUID's or a number's. */
  predicate IsPlain(bytes: seq<byte>) {
    bytes != [] && forall i :: 0 <= i < |bytes| ==> 33 <= bytes[i] < 127
  }

  lemma WhiteDropped(bytes: seq<byte>)
    requires bytes != [] && 9 <= bytes[|bytes| - 1] <= 13
    ensures TrimEnd(bytes) == TrimEnd(bytes[..|bytes| - 1])
  {
  }

  /** Trimming takes only the newline behind a cursor line: the text is the page's
      body and the line that names the cursor. */
  lemma CursorLineSurvives(page: Answer, words: Words, name: nat -> seq<byte>)
    requires page.Page? && page.next.Some? && IsPlain(name(page.next.value))
    ensures TextOf(page, words, name) == page.body + Ascii(words.next) + name(page.next.value)
  {
    var id := name(page.next.value);
    var whole, text := page.body + CursorLine(words, name, page.next), page.body + Ascii(words.next) + id;
    assert whole == text + [NEWLINE];
    assert text[|text| - 1] == id[|id| - 1];
    NewlineDropped(text);
  }

  lemma NewlineDropped(text: seq<byte>)
    requires text != [] && 33 <= text[|text| - 1] < 127
    ensures TrimEnd(text + [NEWLINE]) == text
  {
    assert (text + [NEWLINE])[..|text|] == text;
    WhiteDropped(text + [NEWLINE]);
  }

  function LastTrimmed(text: seq<Scalar>): seq<Scalar> {
    if text == [] || !IsWhite(text[|text| - 1]) then text else LastTrimmed(text[..|text| - 1])
  }

  lemma WhiteIffEncoded(before: seq<byte>, c: Scalar)
    ensures WhiteAtEnd(before + Encode(c)) == if IsWhite(c) then |Encode(c)| else 0
  {
  }

  /** On text, trimming removes exactly the white characters at the end. */
  lemma {:induction false} TrimEndOfText(text: seq<Scalar>)
    ensures TrimEnd(Utf8(text)) == Utf8(LastTrimmed(text))
    decreases |text|
  {
    if text != [] {
      var front, c := text[..|text| - 1], text[|text| - 1];
      Utf8Splits(text, |text| - 1);
      assert text[|text| - 1..] == [c] && Utf8([c]) == Encode(c) + Utf8([]);
      assert Utf8(text) == Utf8(front) + Encode(c);
      WhiteIffEncoded(Utf8(front), c);
      if IsWhite(c) {
        assert Utf8(text)[..|Utf8(text)| - |Encode(c)|] == Utf8(front);
        TrimEndOfText(front);
      }
    }
  }

  // --------------------------------------------------------- page bounds

  /** Every page renders at least one entry and at most twenty, stops only for
      want of room or at the item cap, and its body exceeds the budget by at
      most the newline behind the last line. */
  lemma {:induction false} PageBounds(listed: seq<Entry>, separator: seq<byte>)
    requires listed != []
    ensures var lines := Lines(listed); var n := Rendered(lines, separator);
            && 1 <= n <= PAGE_SIZE && n <= |listed|
            && |Body(lines, n, separator)| <= BODY_BUDGET + |separator|
            && (n < |listed| && n < PAGE_SIZE ==> |Body(lines, n, separator)| + |listed[n].line| > BODY_BUDGET)
  {
    var lines := Lines(listed);
    assert |Body(lines, 1, separator)| == |Body(lines, 0, separator)| + |lines[0]| + |separator|;
    ExtendIsGreedy(lines, 1, separator);
    assert Rendered(lines, separator) == Extend(lines, 1, |Body(lines, 1, separator)|, |separator|);
  }

  // ---------------------------------------------------- following cursors

  lemma {:induction false} FirstBehindSplits(shelf: Shelf, cursor: nat, from: nat)
    requires shelf.Valid() && from <= |shelf.entries|
    requires forall i :: 0 <= i < from ==> !shelf.IsBehind(shelf.entries[i], cursor)
    ensures forall i :: 0 <= i < |shelf.entries| ==>
              (shelf.IsBehind(shelf.entries[i], cursor) <==> i >= shelf.FirstBehind(cursor, from))
    decreases |shelf.entries| - from
  {
    if from < |shelf.entries| && !shelf.IsBehind(shelf.entries[from], cursor) {
      FirstBehindSplits(shelf, cursor, from + 1);
    }
  }

  /** A page for a cursor lists the first entries that the query's condition lets
      through: memories older than the one named, none for a memory the store does
      not have, or every revision with a higher number. */
  lemma CursorMeaning(shelf: Shelf, cursor: Option<nat>)
    requires shelf.Valid()
    ensures cursor.None? ==> shelf.Start(cursor) == 0
    ensures cursor.Some? ==> forall k :: 0 <= k < |shelf.entries| ==>
              (shelf.IsBehind(shelf.entries[k], cursor.value) <==> k >= shelf.Start(cursor))
    ensures shelf.Memories? && cursor.Some? && cursor.value !in shelf.rows ==> shelf.Start(cursor) == |shelf.entries|
  {
    if shelf.Continues(cursor) {
      FirstBehindSplits(shelf, cursor.value, 0);
      var start := shelf.Start(cursor);
      assert start < |shelf.entries| ==> shelf.IsBehind(shelf.entries[start], cursor.value);
    }
  }

  lemma CursorResumes(shelf: Shelf, k: nat)
    requires shelf.Valid() && k < |shelf.entries|
    ensures shelf.Start(Some(shelf.entries[k].id)) == k + 1
  {
    var start := shelf.Start(Some(shelf.entries[k].id));
    CursorMeaning(shelf, Some(shelf.entries[k].id));
    assert !shelf.IsBehind(shelf.entries[k], shelf.entries[k].id);
    assert k + 1 < |shelf.entries| ==> shelf.IsBehind(shelf.entries[k + 1], shelf.entries[k].id);
  }

  /** One request and its answer: the page shows the entries from `start` to
      `stop`. */
  datatype Visit = Visit(cursor: Option<nat>, start: nat, stop: nat, page: Answer)

  ghost predicate IsVisit(shelf: Shelf, v: Visit) {
    && v.page == Answered(shelf, v.cursor)
    && v.start == shelf.Start(v.cursor)
    && v.stop == v.start + Rendered(Lines(shelf.Listed(v.cursor)), shelf.Separator())
  }

  /** The request follows the cursor line of the page before it. */
  ghost predicate Follows(v: Visit, before: Visit) {
    before.page.Page? && before.page.next.Some? && v.cursor == before.page.next
  }

  /** The requests of a reader who starts without a cursor and follows the
      cursor line of every page. */
  ghost predicate IsWalk(shelf: Shelf, visits: seq<Visit>) {
    && visits != [] && visits[0].cursor == None
    && (forall i: nat :: i < |visits| ==> IsStop(shelf, visits, i))
  }

  ghost predicate IsStop(shelf: Shelf, visits: seq<Visit>, i: nat)
    requires i < |visits|
  {
    IsVisit(shelf, visits[i]) && (i > 0 ==> Follows(visits[i], visits[i - 1]))
  }

  /** The walk is over: the last page names no cursor. */
  ghost predicate Ended(visits: seq<Visit>)
    requires visits != []
  {
    var last := visits[|visits| - 1].page;
    last.Page? ==> last.next.None?
  }

  /** A page shows at least one entry and at most twenty; it names a cursor unless
      it reaches the end of the shelf, and the cursor names its last entry. */
  ghost predicate IsPlaced(shelf: Shelf, v: Visit) {
    && v.start == shelf.Start(v.cursor)
    && (v.page.Page? <==> v.start < |shelf.entries|)
    && (v.page.Page? ==>
          && v.start < v.stop <= v.start + PAGE_SIZE && v.stop <= |shelf.entries|
          && v.page.next == (if v.stop < |shelf.entries| then Some(shelf.entries[v.stop - 1].id) else None))
  }

  lemma PageOfVisit(shelf: Shelf, v: Visit)
    requires IsVisit(shelf, v)
    ensures IsPlaced(shelf, v)
  {
    var listed := shelf.Listed(v.cursor);
    if listed != [] {
      ListedAt(shelf, v.cursor, v.stop - v.start - 1);
    }
  }

  lemma ListedAt(shelf: Shelf, cursor: Option<nat>, i: nat)
    requires i < |shelf.Listed(cursor)|
    ensures shelf.Start(cursor) + i < |shelf.entries| &&
            shelf.Listed(cursor)[i] == shelf.entries[shelf.Start(cursor) + i]
  {
  }

  /** What a page contains: the lines of the entries it shows, within the budget
      and one newline. */
  lemma BodyOfVisit(shelf: Shelf, v: Visit)
    requires IsVisit(shelf, v) && v.page.Page?
    ensures v.start < v.stop <= |shelf.entries|
    ensures v.page.body == Body(Lines(shelf.entries[v.start..]), v.stop - v.start, shelf.Separator())
    ensures |v.page.body| <= BODY_BUDGET + 1
  {
    PageOfVisit(shelf, v);
    ListedIsNext(shelf, v.cursor);
    BodyOfListed(shelf.Listed(v.cursor), shelf.entries[v.start..], shelf.Separator());
  }

  lemma ListedIsNext(shelf: Shelf, cursor: Option<nat>)
    ensures var listed, rest := shelf.Listed(cursor), shelf.entries[shelf.Start(cursor)..];
            |listed| <= |rest| && listed == rest[..|listed|]
  {
  }

  lemma BodyOfListed(listed: seq<Entry>, rest: seq<Entry>, separator: seq<byte>)
    requires listed != [] && |listed| <= |rest| && listed == rest[..|listed|]
    ensures var n := Rendered(Lines(listed), separator);
            && n <= |rest| && PageOf(listed, separator).body == Body(Lines(rest), n, separator)
            && |Body(Lines(rest), n, separator)| <= BODY_BUDGET + |separator|
  {
    PageBounds(listed, separator);
    SameLines(listed, rest, Rendered(Lines(listed), separator), separator);
  }

  lemma SameLines(listed: seq<Entry>, rest: seq<Entry>, n: nat, separator: seq<byte>)
    requires n <= |listed| <= |rest| && forall i :: 0 <= i < |listed| ==> listed[i] == rest[i]
    ensures Body(Lines(listed), n, separator) == Body(Lines(rest), n, separator)
  {
    BodyOfPrefix(Lines(listed), Lines(rest), n, separator);
  }

  lemma {:induction false} BodyOfPrefix(a: seq<seq<byte>>, b: seq<seq<byte>>, n: nat, separator: seq<byte>)
    requires n <= |a| <= |b| && forall i :: 0 <= i < n ==> a[i] == b[i]
    ensures Body(a, n, separator) == Body(b, n, separator)
  {
    if n > 0 {
      BodyOfPrefix(a, b, n - 1, separator);
    }
  }

  /** The page asked for next starts where the page before it stops. */
  lemma VisitsAdjoin(shelf: Shelf, before: Visit, v: Visit)
    requires shelf.Valid() && IsPlaced(shelf, before) && IsPlaced(shelf, v) && Follows(v, before)
    ensures before.start < before.stop == v.start < |shelf.entries|
  {
    CursorResumes(shelf, before.stop - 1);
  }

  /** The pages of a walk cover the entries up to its last page, one behind the
      other and at least one entry each. */
  ghost predicate Adjoin(visits: seq<Visit>, total: nat) {
    && visits != [] && visits[0].start == 0
    && (forall i: nat :: i < |visits| - 1 ==> IsJoint(visits, i, total))
  }

  ghost predicate IsJoint(visits: seq<Visit>, i: nat, total: nat)
    requires i < |visits| - 1
  {
    visits[i].start < visits[i].stop == visits[i + 1].start < total
  }

  lemma JointOfWalk(shelf: Shelf, visits: seq<Visit>, i: nat)
    requires shelf.Valid() && IsWalk(shelf, visits) && i < |visits| - 1
    ensures IsJoint(visits, i, |shelf.entries|)
  {
    assert IsStop(shelf, visits, i) && IsStop(shelf, visits, i + 1);
    PageOfVisit(shelf, visits[i]);
    PageOfVisit(shelf, visits[i + 1]);
    VisitsAdjoin(shelf, visits[i], visits[i + 1]);
  }

  lemma WalkAdjoins(shelf: Shelf, visits: seq<Visit>)
    requires shelf.Valid() && IsWalk(shelf, visits)
    ensures Adjoin(visits, |shelf.entries|)
  {
    assert IsStop(shelf, visits, 0);
    forall i: nat | i < |visits| - 1 ensures IsJoint(visits, i, |shelf.entries|) {
      JointOfWalk(shelf, visits, i);
    }
  }

  lemma {:induction false} StartsOrdered(visits: seq<Visit>, total: nat, i: nat, j: nat)
    requires Adjoin(visits, total) && i < j < |visits|
    ensures visits[i].stop <= visits[j].start && j <= visits[j].start < total
    decreases j
  {
    assert IsJoint(visits, j - 1, total);
    if i < j - 1 {
      StartsOrdered(visits, total, i, j - 1);
    } else if i > 0 {
      StartsOrdered(visits, total, i - 1, i);
    }
  }

  /** The page that shows an entry that some page reaches. */
  lemma {:induction false} VisitShowing(visits: seq<Visit>, total: nat, k: nat, last: nat) returns (at: nat)
    requires Adjoin(visits, total) && last < |visits| && k < visits[last].stop
    ensures at <= last && visits[at].start <= k < visits[at].stop
  {
    if visits[last].start <= k {
      at := last;
    } else {
      assert IsJoint(visits, last - 1, total);
      at := VisitShowing(visits, total, k, last - 1);
    }
  }

  /** Some page of the walk shows the entry at `k`. */
  ghost predicate IsShown(visits: seq<Visit>, k: nat) {
    exists i :: 0 <= i < |visits| && visits[i].start <= k < visits[i].stop
  }

  /** Following the cursors shows no entry twice and in no other order than the
      shelf's, ends after at most one page an entry, and has then shown every
      entry. */
  lemma WalkListsEachOnce(shelf: Shelf, visits: seq<Visit>)
    requires shelf.Valid() && IsWalk(shelf, visits)
    ensures |visits| <= Max(1, |shelf.entries|)
    ensures forall i, j :: 0 <= i < j < |visits| ==> visits[i].stop <= visits[j].start
    ensures Ended(visits) ==> forall k: nat :: k < |shelf.entries| ==> IsShown(visits, k)
  {
    var total, last := |shelf.entries|, |visits| - 1;
    WalkAdjoins(shelf, visits);
    forall i, j | 0 <= i < j < |visits| ensures visits[i].stop <= visits[j].start && j < total {
      StartsOrdered(visits, total, i, j);
    }
    assert last > 0 ==> visits[0].stop <= visits[last].start;
    if Ended(visits) {
      assert IsStop(shelf, visits, last);
      PageOfVisit(shelf, visits[last]);
      if last > 0 { StartsOrdered(visits, total, 0, last); }
      assert visits[last].page.Page? || total == 0;
      forall k: nat | k < total ensures IsShown(visits, k) {
        var at := VisitShowing(visits, total, k, last);
      }
    }
  }

  // --------------------------------------------------- where the lines stand

  /** Where the i-th line starts when every line before it takes its length and a
      separator. */
  function LineStart(lines: seq<seq<byte>>, i: nat, gap: nat): nat
    requires i <= |lines|
  {
    if i == 0 then 0 else LineStart(lines, i - 1, gap) + |lines[i - 1]| + gap
  }

  /** In a body every line stands behind the lines before it, with its separator
      behind it, and nothing else is in the body. */
  lemma {:induction false} LineStands(lines: seq<seq<byte>>, n: nat, separator: seq<byte>, i: nat)
    requires i < n <= |lines|
    ensures |Body(lines, n, separator)| == LineStart(lines, n, |separator|)
    ensures var body, start := Body(lines, n, separator), LineStart(lines, i, |separator|);
            var stop := start + |lines[i]|;
            && stop + |separator| <= |body|
            && body[start..stop] == lines[i] && body[stop..stop + |separator|] == separator
  {
    var before := Body(lines, n - 1, separator);
    var body := Body(lines, n, separator);
    assert body == before + lines[n - 1] + separator;
    if n == 1 {
      assert before == [];
    } else if i < n - 1 {
      LineStands(lines, n - 1, separator, i);
      var start := LineStart(lines, i, |separator|);
      var stop := start + |lines[i]|;
      assert body[start..stop] == before[start..stop];
      assert body[stop..stop + |separator|] == before[stop..stop + |separator|];
    } else {
      LineStands(lines, n - 1, separator, 0);
    }
  }

  lemma {:induction false} TrimIsPrefix(bytes: seq<byte>)
    ensures |TrimEnd(bytes)| <= |bytes| && TrimEnd(bytes) == bytes[..|TrimEnd(bytes)|]
    decreases |bytes|
  {
    if WhiteAtEnd(bytes) > 0 {
      TrimIsPrefix(bytes[..|bytes| - WhiteAtEnd(bytes)]);
    }
  }

  /** One of the two starts with the other. */
  ghost predicate Agree(text: seq<byte>, body: seq<byte>) {
    forall k :: 0 <= k < |text| && k < |body| ==> text[k] == body[k]
  }

  /** The line stands at `start`, as far as the text goes. */
  ghost predicate Shows(text: seq<byte>, start: nat, line: seq<byte>) {
    forall k :: 0 <= k < |line| && start + k < |text| ==> text[start + k] == line[k]
  }

  /** The text starts with the page's body, whole when a cursor line follows. */
  lemma TextStartsWithBody(page: Answer, words: Words, name: nat -> seq<byte>)
    requires page.Page? && (page.next.Some? ==> IsPlain(name(page.next.value)))
    ensures var text := TextOf(page, words, name);
            && (page.next.Some? ==> |page.body| <= |text|)
            && Agree(text, page.body)
  {
    if page.next.Some? {
      CursorLineSurvives(page, words, name);
    } else {
      assert page.body + CursorLine(words, name, page.next) == page.body;
      TrimIsPrefix(page.body);
    }
  }

  ghost predicate IsAt(body: seq<byte>, start: nat, line: seq<byte>) {
    start + |line| <= |body| && forall k :: 0 <= k < |line| ==> body[start + k] == line[k]
  }

  lemma LineOfBody(lines: seq<seq<byte>>, n: nat, separator: seq<byte>, i: nat)
    requires i < n <= |lines|
    ensures IsAt(Body(lines, n, separator), LineStart(lines, i, |separator|), lines[i])
  {
    LineStands(lines, n, separator, i);
    var body, start := Body(lines, n, separator), LineStart(lines, i, |separator|);
    forall k | 0 <= k < |lines[i]| ensures body[start + k] == lines[i][k] {
      assert body[start..start + |lines[i]|][k] == lines[i][k];
    }
  }

  lemma TextOfLines(page: Answer, words: Words, name: nat -> seq<byte>, lines: seq<seq<byte>>, n: nat,
                    separator: seq<byte>, i: nat)
    requires page.Page? && (page.next.Some? ==> IsPlain(name(page.next.value)))
    requires i < n <= |lines| && page.body == Body(lines, n, separator)
    ensures var text, start := TextOf(page, words, name), LineStart(lines, i, |separator|);
            && Shows(text, start, lines[i])
            && (page.next.Some? ==> start + |lines[i]| <= |text|)
  {
    LineOfBody(lines, n, separator, i);
    TextStartsWithBody(page, words, name);
    BehindInText(lines[i], page.body, TextOf(page, words, name), LineStart(lines, i, |separator|));
  }

  /** In the text that a page shows, the line of every entry it renders stands behind
      the lines before it; on the last page, whose end is trimmed, as far as the text
      goes. */
  lemma TextShowsLine(shelf: Shelf, v: Visit, words: Words, name: nat -> seq<byte>, i: nat)
    requires IsVisit(shelf, v) && v.page.Page? && v.start + i < v.stop
    requires v.page.next.Some? ==> IsPlain(name(v.page.next.value))
    ensures v.stop <= |shelf.entries|
    ensures var lines, text := Lines(shelf.entries[v.start..]), TextOf(v.page, words, name);
            var start := LineStart(lines, i, |shelf.Separator()|);
            && Shows(text, start, lines[i])
            && (v.page.next.Some? ==> start + |lines[i]| <= |text|)
  {
    BodyOfVisit(shelf, v);
    TextOfLines(v.page, words, name, Lines(shelf.entries[v.start..]), v.stop - v.start, shelf.Separator(), i);
  }

  lemma BehindInText(line: seq<byte>, body: seq<byte>, text: seq<byte>, start: nat)
    requires IsAt(body, start, line)
    requires Agree(text, body)
    ensures Shows(text, start, line)
    ensures |body| <= |text| ==> start + |line| <= |text|
  {
  }

  /** A page delivers text exactly when one of the entries it renders does. */
  lemma {:induction false} DeliversIff(listed: seq<Entry>, n: nat)
    requires n <= |listed|
    ensures Delivers(listed, n) <==> exists i :: 0 <= i < n && listed[i].delivered
  {
    if n > 0 {
      DeliversIff(listed, n - 1);
    }
  }

  // ------------------------------------------------------------ each answer

  /** No entry is behind the cursor. */
  ghost predicate NoneBehind(shelf: Shelf, cursor: nat) {
    forall k :: 0 <= k < |shelf.entries| ==> !shelf.IsBehind(shelf.entries[k], cursor)
  }

  lemma NothingBehindIff(shelf: Shelf, cursor: Option<nat>)
    requires shelf.Valid()
    ensures Answered(shelf, cursor).Nothing? <==> shelf.entries == [] && !shelf.Continues(cursor)
    ensures Answered(shelf, cursor).NothingMore? <==> shelf.Continues(cursor) && NoneBehind(shelf, cursor.value)
    ensures Answered(shelf, cursor).Nothing? || Answered(shelf, cursor).NothingMore? || Answered(shelf, cursor).Page?
  {
    CursorMeaning(shelf, cursor);
    var start := shelf.Start(cursor);
    if shelf.Continues(cursor) && start < |shelf.entries| {
      assert shelf.IsBehind(shelf.entries[start], cursor.value);
    }
  }

  /** Which answer a request for memories gets: without a companion it is unavailable,
      then an unreadable cursor is refused, then the store may fail, and an empty
      page says whether a cursor was given. */
  lemma MemoryAnswerIff(running: bool, after: Option<Option<nat>>, store: Option<seq<Entry>>, rows: map<nat, nat>)
    requires store.Some? ==> Memories(store.value, rows).Valid()
    ensures var answer := MemoryAnswer(running, after, store, rows);
            && (answer.Unavailable? <==> !running || (after != Some(None) && store.None?))
            && (answer.InvalidCursor? <==> running && after == Some(None))
            && (answer.Nothing? <==> running && after.None? && store == Some([]))
            && (answer.NothingMore? <==>
                  && running && after.Some? && after.value.Some? && store.Some?
                  && NoneBehind(Memories(store.value, rows), after.value.value))
  {
    if store.Some? {
      NothingBehindIff(Memories(store.value, rows), if after.Some? then after.value else None);
    }
  }

  /** For revisions the cursor is looked at first, and zero asks for the first page. */
  lemma RevisionAnswerIff(readable: bool, after: Option<nat>, store: Option<seq<Entry>>)
    requires store.Some? ==> Revisions(store.value).Valid()
    ensures var answer := RevisionAnswer(readable, after, store);
            && (answer.InvalidCursor? <==> !readable)
            && (answer.Unavailable? <==> readable && store.None?)
            && (answer.Nothing? <==> readable && store == Some([]) && after in {None, Some(0)})
            && (answer.NothingMore? <==>
                  && readable && store.Some? && after.Some? && after.value > 0
                  && forall k :: 0 <= k < |store.value| ==> store.value[k].id <= after.value)
    ensures readable && after == Some(0) ==> RevisionAnswer(readable, after, store) == RevisionAnswer(true, None, store)
  {
    if store.Some? {
      NothingBehindIff(Revisions(store.value), after);
      if after.Some? {
        assert NoneBehind(Revisions(store.value), after.value)
               <==> forall k :: 0 <= k < |store.value| ==> store.value[k].id <= after.value;
      }
    }
  }

  /** The words of the answers that are no page. */
  lemma AnswerWords(name: nat -> seq<byte>)
    ensures TextOf(Unavailable, MEMORY_WORDS, name) == TextOf(Unavailable, REVISION_WORDS, name) == Ascii("unavailable")
    ensures TextOf(InvalidCursor, MEMORY_WORDS, name) == TextOf(InvalidCursor, REVISION_WORDS, name)
            == Ascii("invalid cursor")
    ensures TextOf(Nothing, MEMORY_WORDS, name) == Ascii("(none)")
    ensures TextOf(NothingMore, MEMORY_WORDS, name) == Ascii("no older memories")
    ensures TextOf(Nothing, REVISION_WORDS, name) == Ascii("unknown memory")
    ensures TextOf(NothingMore, REVISION_WORDS, name) == Ascii("no more revisions")
  {
  }

  // ------------------------------------------------------ the whole walk's text

  function Flat(parts: seq<seq<byte>>): seq<byte> {
    if parts == [] then [] else Flat(parts[..|parts| - 1]) + parts[|parts| - 1]
  }

  lemma {:induction false} FlatSplits(a: seq<seq<byte>>, b: seq<seq<byte>>)
    ensures Flat(a + b) == Flat(a) + Flat(b)
    decreases |b|
  {
    if b == [] {
      assert a + b == a;
    } else {
      assert (a + b)[..|a + b| - 1] == a + b[..|b| - 1];
      FlatSplits(a, b[..|b| - 1]);
    }
  }

  /** Some page of the walk starts with the entry at `k`. */
  ghost predicate Starts(visits: seq<Visit>, k: nat) {
    exists i: nat :: i < |visits| && visits[i].start == k
  }

  ghost function Piece(shelf: Shelf, visits: seq<Visit>, k: nat): seq<byte>
    requires k < |shelf.entries|
  {
    LineFor(shelf.entries[k], Starts(visits, k)) + shelf.Separator()
  }

  ghost function Pieces(shelf: Shelf, visits: seq<Visit>): (pieces: seq<seq<byte>>)
    ensures |pieces| == |shelf.entries|
  {
    seq(|shelf.entries|, k requires 0 <= k < |shelf.entries| => Piece(shelf, visits, k))
  }

  ghost function Bodies(visits: seq<Visit>): (bodies: seq<seq<byte>>)
    ensures |bodies| == |visits|
  {
    seq(|visits|, i requires 0 <= i < |visits| => if visits[i].page.Page? then visits[i].page.body else [])
  }

  lemma {:induction false} BodyIsFlat(lines: seq<seq<byte>>, n: nat, separator: seq<byte>, parts: seq<seq<byte>>)
    requires n == |parts| <= |lines| && forall i :: 0 <= i < n ==> parts[i] == lines[i] + separator
    ensures Body(lines, n, separator) == Flat(parts)
  {
    if n > 0 {
      BodyIsFlat(lines, n - 1, separator, parts[..n - 1]);
      assert Body(lines, n - 1, separator) + (lines[n - 1] + separator) == Body(lines, n, separator);
    }
  }

  lemma BodyIsStretch(lines: seq<seq<byte>>, separator: seq<byte>, pieces: seq<seq<byte>>, start: nat, n: nat)
    requires n <= |lines| && start + n <= |pieces|
    requires forall j: nat :: j < n ==> IsPiece(lines, separator, pieces, start, j)
    ensures Body(lines, n, separator) == Flat(pieces[start..start + n])
  {
    var parts := pieces[start..start + n];
    forall j | 0 <= j < n ensures parts[j] == lines[j] + separator {
      assert IsPiece(lines, separator, pieces, start, j);
    }
    BodyIsFlat(lines, n, separator, parts);
  }

  ghost predicate IsPiece(lines: seq<seq<byte>>, separator: seq<byte>, pieces: seq<seq<byte>>, start: nat, j: nat)
    requires j < |lines| && start + j < |pieces|
  {
    pieces[start + j] == lines[j] + separator
  }

  /** Only the first entry of a page starts one. */
  lemma StartsOnce(visits: seq<Visit>, total: nat, i: nat, j: nat, k: nat)
    requires Adjoin(visits, total) && i < |visits| && visits[i].start <= k < visits[i].stop
    requires j < |visits| && visits[j].start == k
    ensures i == j
  {
    if j < i {
      assert IsJoint(visits, j, total);
      StartsOrdered(visits, total, j, i);
    }
    if i < j {
      StartsOrdered(visits, total, i, j);
    }
  }

  lemma StartsPage(visits: seq<Visit>, total: nat, i: nat, k: nat)
    requires Adjoin(visits, total) && i < |visits| && visits[i].start <= k < visits[i].stop
    ensures Starts(visits, k) <==> k == visits[i].start
  {
    if Starts(visits, k) {
      var j: nat :| j < |visits| && visits[j].start == k;
      StartsOnce(visits, total, i, j, k);
    }
  }

  lemma LineAt(shelf: Shelf, start: nat, j: nat)
    requires start + j < |shelf.entries|
    ensures Lines(shelf.entries[start..])[j] == LineFor(shelf.entries[start + j], j == 0)
  {
  }

  lemma PieceIsLine(shelf: Shelf, visits: seq<Visit>, i: nat, j: nat)
    requires Adjoin(visits, |shelf.entries|) && i < |visits| && visits[i].stop <= |shelf.entries|
    requires visits[i].start + j < visits[i].stop
    ensures IsPiece(Lines(shelf.entries[visits[i].start..]), shelf.Separator(), Pieces(shelf, visits),
                    visits[i].start, j)
  {
    StartsPage(visits, |shelf.entries|, i, visits[i].start + j);
    LineAt(shelf, visits[i].start, j);
    assert Pieces(shelf, visits)[visits[i].start + j] == Piece(shelf, visits, visits[i].start + j);
  }

  /** The body stands for the entries from `start` to `stop`. */
  ghost predicate IsStretch(body: seq<byte>, pieces: seq<seq<byte>>, v: Visit) {
    v.start <= v.stop <= |pieces| && body == Flat(pieces[v.start..v.stop])
  }

  lemma LinesArePieces(shelf: Shelf, visits: seq<Visit>, i: nat)
    requires Adjoin(visits, |shelf.entries|) && i < |visits| && visits[i].start < visits[i].stop <= |shelf.entries|
    ensures var v := visits[i];
            Body(Lines(shelf.entries[v.start..]), v.stop - v.start, shelf.Separator())
            == Flat(Pieces(shelf, visits)[v.start..v.stop])
  {
    var start, n := visits[i].start, visits[i].stop - visits[i].start;
    var lines, separator, pieces := Lines(shelf.entries[start..]), shelf.Separator(), Pieces(shelf, visits);
    forall j: nat | j < n ensures IsPiece(lines, separator, pieces, start, j) {
      PieceIsLine(shelf, visits, i, j);
    }
    BodyIsStretch(lines, separator, pieces, start, n);
  }

  /** A page's body is the pieces of the entries it shows. */
  lemma BodyIsPieces(shelf: Shelf, visits: seq<Visit>, i: nat)
    requires Adjoin(visits, |shelf.entries|) && i < |visits|
    requires IsVisit(shelf, visits[i]) && visits[i].page.Page?
    ensures IsStretch(visits[i].page.body, Pieces(shelf, visits), visits[i])
  {
    BodyOfVisit(shelf, visits[i]);
    LinesArePieces(shelf, visits, i);
  }

  lemma FlatOfPrefix(pieces: seq<seq<byte>>, start: nat, stop: nat)
    requires start <= stop <= |pieces|
    ensures Flat(pieces[..stop]) == Flat(pieces[..start]) + Flat(pieces[start..stop])
  {
    FlatSplits(pieces[..start], pieces[start..stop]);
    assert pieces[..stop] == pieces[..start] + pieces[start..stop];
  }

  lemma {:induction false} StretchesJoin(bodies: seq<seq<byte>>, pieces: seq<seq<byte>>, visits: seq<Visit>)
    requires Adjoin(visits, |pieces|) && |visits| == |bodies|
    requires forall j: nat :: j < |bodies| ==> IsStretch(bodies[j], pieces, visits[j])
    ensures visits[|visits| - 1].stop <= |pieces|
    ensures Flat(bodies) == Flat(pieces[..visits[|visits| - 1].stop])
    decreases |visits|
  {
    var i := |visits| - 1;
    assert IsStretch(bodies[i], pieces, visits[i]);
    if i > 0 {
      assert IsJoint(visits, i - 1, |pieces|);
      AdjoinPrefix(visits, |pieces|);
      StretchesJoin(bodies[..i], pieces, visits[..i]);
    } else {
      assert bodies[..0] == [] && pieces[..0] == [];
    }
    FlatOfPrefix(pieces, visits[i].start, visits[i].stop);
  }

  lemma AdjoinPrefix(visits: seq<Visit>, total: nat)
    requires Adjoin(visits, total) && |visits| > 1
    ensures Adjoin(visits[..|visits| - 1], total)
  {
    var front := visits[..|visits| - 1];
    forall i: nat | i < |front| - 1 ensures IsJoint(front, i, total) {
      assert IsJoint(visits, i, total);
    }
  }

  lemma PageIsStretch(shelf: Shelf, visits: seq<Visit>, j: nat)
    requires shelf.Valid() && IsWalk(shelf, visits) && j < |visits|
    requires visits[|visits| - 1].page.Page?
    ensures IsStretch(Bodies(visits)[j], Pieces(shelf, visits), visits[j])
  {
    WalkAdjoins(shelf, visits);
    assert IsStop(shelf, visits, j);
    if j < |visits| - 1 { assert IsStop(shelf, visits, j + 1); }
    BodyIsPieces(shelf, visits, j);
  }

  lemma EndOfWalk(shelf: Shelf, visits: seq<Visit>)
    requires shelf.Valid() && IsWalk(shelf, visits) && Ended(visits)
    ensures var v := visits[|visits| - 1];
            if v.page.Page? then v.stop == |shelf.entries| else |visits| == 1 && shelf.entries == []
  {
    var last := |visits| - 1;
    assert IsStop(shelf, visits, last);
    PageOfVisit(shelf, visits[last]);
    WalkAdjoins(shelf, visits);
    if last > 0 { StartsOrdered(visits, |shelf.entries|, 0, last); }
  }

  /** The bodies of all pages of a walk that is over, one behind the other, are the
      lines of the whole shelf in order, each with its separator, and capped where a
      page starts. */
  lemma WalkShowsShelf(shelf: Shelf, visits: seq<Visit>)
    requires shelf.Valid() && IsWalk(shelf, visits) && Ended(visits)
    ensures Flat(Bodies(visits)) == Flat(Pieces(shelf, visits))
  {
    var bodies, pieces, last := Bodies(visits), Pieces(shelf, visits), |visits| - 1;
    EndOfWalk(shelf, visits);
    if visits[last].page.Page? {
      WalkAdjoins(shelf, visits);
      forall j: nat | j <= last ensures IsStretch(bodies[j], pieces, visits[j]) {
        PageIsStretch(shelf, visits, j);
      }
      StretchesJoin(bodies, pieces, visits);
      assert pieces[..visits[last].stop] == pieces;
    } else {
      assert bodies == [[]] && pieces == [] && bodies[..0] == [];
    }
  }
}
