/**
 Importing a genesis dump in batches that survive any interruption
 (src/entityGenesisDumpImport.ts): what the state row says is always a prefix
 of the dump, at a line boundary, with exactly its rows in the table.
 */
module DumpImport {
  import opened Wrappers
  import opened ByteStrings
  import opened EntityIndex
  import opened IndexStorage
  import opened Tokenizer
  import opened GenesisDump
  import opened Ledger

  /** A record's code at an ordinal as the version it is stored as; none when it is refused. */
  type RecordDecoder = (ByteString, nat) -> Option<Version>

  /** What an import is of: the bytes, how their JSON and records read, the hash, the root and the count expected. */
  datatype Dump = Dump(
    data: ByteString, json: ByteString -> Json, decode: RecordDecoder, hash: Hash, root: ByteString, total: nat)

  datatype ResumePoint = ResumePoint(offset: nat, line: nat, ledger: LedgerState)

  datatype Phase = Walking | Repairing | Refused

  /** The import's state row, and the genesis rows in the table, one a key. */
  datatype StateRow = StateRow(attempt: nat, imported: nat, resume: Option<ResumePoint>, rows: map<ByteString, Version>, phase: Phase)

  /** One run of the importer, in memory. */
  datatype Attempt = Attempt(
    left: seq<DumpEvent>, broken: bool, imported: nat, batch: seq<Version>, ledger: LedgerState, offset: nat, line: nat)

  // ---------------------------------------------------------------------
  // What a prefix of the dump amounts to

  ghost function Whole(d: Dump): Reading { ReadAll(d.json, d.data, 0, 1) }

  /** The dump's own first line is the expected root's. */
  ghost predicate HasRoot(d: Dump) {
    RootOf(Whole(d)).Found? && Lower(RootOf(Whole(d)).root) == Lower(d.root)
  }

  /** The dump is refused before any of it is loaded: empty, without a root's line, or with another root. */
  ghost predicate RootRefused(d: Dump) {
    !HasRoot(d) && !RootOf(Whole(d)).Unreadable?
  }

  function KeyBytes(v: Version): ByteString {
    if |v.entityKey| < 2 then [] else HexBytes(v.entityKey[2..])
  }

  function KeysOf(rows: seq<Version>): seq<ByteString> {
    if rows == [] then [] else KeysOf(rows[..|rows| - 1]) + [KeyBytes(Last(rows))]
  }

  /** The records among some events, each at its ordinal; none when one is refused. */
  function RowsOf(decode: RecordDecoder, events: seq<DumpEvent>): Option<seq<Version>> {
    if events == [] then Some([])
    else
      var before := RowsOf(decode, events[..|events| - 1]);
      if before.None? || !Last(events).Record? then before
      else
        var v := decode(Last(events).code, |before.value|);
        if v.None? then None else Some(before.value + [v.value])
  }

  function PairsOf(events: seq<DumpEvent>): seq<Pair> {
    if events == [] then []
    else PairsOf(events[..|events| - 1]) + (if Last(events).Slot? then [Pair(Last(events).slot, Last(events).value)] else [])
  }

  function SystemSeen(events: seq<DumpEvent>): bool {
    events != [] && (Last(events).System? || SystemSeen(events[..|events| - 1]))
  }

  /** Roots read so far are the expected one. */
  predicate RootsMatch(d: Dump, events: seq<DumpEvent>) {
    forall i :: 0 <= i < |events| && events[i].Root? ==> Lower(events[i].root) == Lower(d.root)
  }

  ghost function LedgerOf(d: Dump, events: seq<DumpEvent>): LedgerState
    requires RowsOf(d.decode, events).Some?
  {
    StateOf(d.hash, KeysOf(RowsOf(d.decode, events).value), PairsOf(events), SystemSeen(events))
  }

  /** A line ends here: nothing read yet, or the last event is a line's own. */
  predicate AtBoundary(events: seq<DumpEvent>) {
    events == [] || !Last(events).Slot?
  }

  function OffsetAfter(events: seq<DumpEvent>): nat
    requires AtBoundary(events)
  {
    if events == [] then 0 else Last(events).end
  }

  function LineAfter(events: seq<DumpEvent>): nat
    requires AtBoundary(events)
  {
    if events == [] then 1 else Last(events).line + 1
  }

  // ---------------------------------------------------------------------
  // Steps of an attempt

  function FreshLedger(): LedgerState { LedgerState(0, Zeros(32), false, 0, Zeros(32), None) }

  /** A new attempt picks up where the row says, and reads on from there. */
  ghost function Begun(d: Dump, row: StateRow): Attempt
    requires row.resume.Some? ==> row.resume.value.offset <= |d.data|
  {
    var offset := if row.resume.Some? then row.resume.value.offset else 0;
    var line := if row.resume.Some? then row.resume.value.line else 1;
    var reading := ReadAll(d.json, d.data[offset..], offset, line);
    Attempt(reading.events, reading.failed.Some?, row.imported, [],
            if row.resume.Some? then row.resume.value.ledger else FreshLedger(), offset, line)
  }

  /** Moving past a line remembers where the next one starts. */
  function PastLine(a: Attempt, event: DumpEvent): Attempt
    requires !event.Slot?
  {
    a.(offset := event.end, line := event.line + 1)
  }

  /** What the ledger makes of an event; a record's key is that of the version it decodes to. */
  function Booked(d: Dump, ledger: LedgerState, event: DumpEvent): LedgerState {
    if event.Slot? then WithSlot(d.hash, ledger, event.slot, event.value)
    else if event.System? then ledger.(systemSeen := true)
    else if event.Record? && d.decode(event.code, ledger.records).Some? then
      WithRecord(d.hash, ledger, KeyBytes(d.decode(event.code, ledger.records).value))
    else ledger
  }

  /** The import ends with a refusal at this event: another root, or a record that cannot be stored faithfully. */
  predicate Refuses(d: Dump, a: Attempt, event: DumpEvent) {
    (event.Root? && Lower(event.root) != Lower(d.root)) || (event.Record? && d.decode(event.code, a.ledger.records).None?)
  }

  /** One event of the loop; none when it ends the import with a refusal. */
  function Taken(d: Dump, a: Attempt): Option<Attempt>
    requires a.left != []
  {
    var event := a.left[0];
    if Refuses(d, a, event) then None
    else
      var next := a.(left := a.left[1..], ledger := Booked(d, a.ledger, event),
                     batch := if event.Record? then a.batch + [d.decode(event.code, a.ledger.records).value] else a.batch);
      Some(if event.Slot? then next else PastLine(next, event))
  }

  /** The row still is this attempt's, where it left it. */
  predicate Owns(row: StateRow, id: nat, a: Attempt) {
    row.attempt == id && row.phase == Walking && row.imported == a.imported
  }

  function Committed(row: StateRow, a: Attempt): StateRow {
    row.(imported := a.imported + |a.batch|, resume := Some(ResumePoint(a.offset, a.line, a.ledger)), rows := InsertRows(row.rows, a.batch))
  }

  /** The failed state, which no later attempt resumes; only the attempt the row names can set it. */
  function RefusedBy(row: StateRow, id: nat): StateRow {
    if row.attempt == id && row.phase == Walking then row.(phase := Refused) else row
  }

  // ---------------------------------------------------------------------
  // The machine

  datatype World = World(row: StateRow, attempts: map<nat, Attempt>)

  datatype Action =
    | Claim(id: nat)
    | RefuseRoot(id: nat)
    | Take(id: nat)
    | Commit(id: nat)
    | HandOver(id: nat)
    | Reject(id: nat)
    | Die(id: nat)

  /**
   A claim names itself afresh. An attempt reads the dump's root before it loads
   anything; where that throws, it dies. Commits come at line boundaries, after any
   number of events: so batches of any size, and stops that flush. The
   hand-over comes after the last event and its commit, once the ledger and the
   count add up; when they do not, the import is refused.
   */
  ghost predicate Allowed(d: Dump, w: World, act: Action) {
    match act
    case Claim(id) => w.row.phase == Walking && id !in w.attempts && id != w.row.attempt
    case RefuseRoot(id) => id in w.attempts && RootRefused(d)
    case Take(id) => HasRoot(d) && id in w.attempts && w.attempts[id].left != []
    case Commit(id) => HasRoot(d) && id in w.attempts && Boundary(d, w.attempts[id])
    case HandOver(id) =>
      HasRoot(d) && id in w.attempts && w.attempts[id].left == [] && !w.attempts[id].broken && w.attempts[id].batch == [] &&
      AddsUp(w.attempts[id].ledger, d.total) && w.attempts[id].imported == d.total
    case Reject(id) =>
      HasRoot(d) && id in w.attempts && w.attempts[id].left == [] && !w.attempts[id].broken &&
      (!AddsUp(w.attempts[id].ledger, d.total) || w.attempts[id].imported + |w.attempts[id].batch| != d.total)
    case Die(id) => true
  }

  /** The attempt's last event, if it took one, was a line's own. */
  ghost predicate Boundary(d: Dump, a: Attempt) {
    |a.left| <= |Whole(d).events| && AtBoundary(Whole(d).events[..|Whole(d).events| - |a.left|])
  }

  ghost function Do(d: Dump, w: World, act: Action): World
    requires Allowed(d, w, act) && (w.row.resume.Some? ==> w.row.resume.value.offset <= |d.data|)
  {
    match act
    case Claim(id) => World(w.row.(attempt := id), w.attempts[id := Begun(d, w.row)])
    case RefuseRoot(id) => World(RefusedBy(w.row, id), w.attempts - {id})
    case Take(id) =>
      var a := Taken(d, w.attempts[id]);
      if a.Some? then w.(attempts := w.attempts[id := a.value])
      else World(RefusedBy(w.row, id), w.attempts - {id})
    case Commit(id) =>
      var a := w.attempts[id];
      if !Owns(w.row, id, a) then w.(attempts := w.attempts - {id})
      else World(Committed(w.row, a), w.attempts[id := a.(imported := a.imported + |a.batch|, batch := [])])
    case HandOver(id) =>
      if !Owns(w.row, id, w.attempts[id]) then w.(attempts := w.attempts - {id})
      else World(w.row.(phase := Repairing, resume := None), w.attempts - {id})
    case Reject(id) => World(RefusedBy(w.row, id), w.attempts - {id})
    case Die(id) => w.(attempts := w.attempts - {id})
  }

  // ---------------------------------------------------------------------
  // The invariant

  /** The row describes exactly the first `n` events: their rows are in, and a resume would start after them. */
  ghost predicate Describes(d: Dump, row: StateRow, n: nat) {
    var all := Whole(d).events;
    n <= |all| && AtBoundary(all[..n]) && RootsMatch(d, all[..n]) &&
    RowsOf(d.decode, all[..n]).Some? && row.imported == |RowsOf(d.decode, all[..n]).value| &&
    row.rows == InsertRows(map[], RowsOf(d.decode, all[..n]).value) &&
    if row.resume.None? then n == 0
    else row.resume == Some(ResumePoint(OffsetAfter(all[..n]), LineAfter(all[..n]), LedgerOf(d, all[..n])))
  }

  /** The owning attempt has read on from the row's prefix, and holds in its batch what it read. */
  ghost predicate ReadsOnFrom(d: Dump, row: StateRow, a: Attempt) {
    var all := Whole(d).events;
    |a.left| <= |all| &&
    var m := |all| - |a.left|;
    a.left == all[m..] && a.broken == Whole(d).failed.Some? && RootsMatch(d, all[..m]) &&
    RowsOf(d.decode, all[..m]).Some? && a.imported == row.imported &&
    var decoded := RowsOf(d.decode, all[..m]).value;
    row.imported + |a.batch| == |decoded| && a.batch == decoded[row.imported..] &&
    row.rows == InsertRows(map[], decoded[..row.imported]) &&
    a.ledger == LedgerOf(d, all[..m]) &&
    (AtBoundary(all[..m]) ==> a.offset == OffsetAfter(all[..m]) && a.line == LineAfter(all[..m]))
  }

  /** A dump one straight reading hands over: it starts with the expected root's line, reads to its end, every record can be stored, root, ledger and count agree. */
  ghost predicate Acceptable(d: Dump) {
    var all := Whole(d).events;
    HasRoot(d) && Whole(d).failed.None? && RowsOf(d.decode, all).Some? && RootsMatch(d, all) &&
    AddsUp(LedgerOf(d, all), d.total) && |RowsOf(d.decode, all).value| == d.total
  }

  /** Everything in, nothing besides. */
  ghost predicate Complete(d: Dump, row: StateRow) {
    Acceptable(d) && row.imported == d.total && row.rows == InsertRows(map[], RowsOf(d.decode, Whole(d).events).value)
  }

  ghost predicate Invariant(d: Dump, w: World) {
    && (w.row.phase == Repairing ==> Complete(d, w.row) && w.row.resume.None?)
    && (w.row.phase == Refused ==> !Acceptable(d))
    && (w.row.phase != Repairing ==> exists n :: Describes(d, w.row, n))
    && (w.row.attempt in w.attempts && w.row.phase == Walking ==> ReadsOnFrom(d, w.row, w.attempts[w.row.attempt]))
  }

  lemma ResumeIsInside(d: Dump, row: StateRow, n: nat)
    requires Describes(d, row, n) && row.resume.Some?
    ensures row.resume.value.offset <= |d.data|
  {
    var all := Whole(d).events;
    if n > 0 {
      assert all[..n][n - 1] == all[n - 1];
      RestartAtLineEnd(d.json, d.data, 0, 1, n - 1);
    }
  }

  lemma InvariantBoundsResume(d: Dump, w: World)
    requires Invariant(d, w)
    ensures w.row.resume.Some? ==> w.row.resume.value.offset <= |d.data|
  {
    if w.row.phase != Repairing && w.row.resume.Some? {
      var n :| Describes(d, w.row, n);
      ResumeIsInside(d, w.row, n);
    }
  }

  lemma OpenedAtTheStart(d: Dump, row: StateRow)
    requires Describes(d, row, 0) && (row.resume.Some? ==> row.resume.value.offset <= |d.data|)
    ensures ReadsOnFrom(d, row, Begun(d, row))
  {
    hide ReadAll;
    var all := Whole(d).events;
    assert d.data[0..] == d.data && all[..0] == [] && all[0..] == all;
    assert FreshLedger() == LedgerOf(d, []);
  }

  lemma OpenedPastTheStart(d: Dump, row: StateRow, n: nat)
    requires Describes(d, row, n) && n > 0 && row.resume.Some? && row.resume.value.offset <= |d.data|
    ensures ReadsOnFrom(d, row, Begun(d, row))
  {
    hide ReadAll, RowsOf, StateOf, RootsMatch, LedgerOf;
    var all, a := Whole(d).events, Begun(d, row);
    assert all[..n][n - 1] == all[n - 1];
    RestartAtLineEnd(d.json, d.data, 0, 1, n - 1);
    assert all[n - 1 + 1..] == all[n..];
    assert a.left == all[n..] && a.broken == Whole(d).failed.Some?;
    assert |all| - |a.left| == n;
    var decoded := RowsOf(d.decode, all[..n]).value;
    assert decoded[..row.imported] == decoded && decoded[row.imported..] == [];
  }

  /** Reading on from the resume point is reading the rest of the dump. */
  lemma OpenedReadsOn(d: Dump, row: StateRow, n: nat)
    requires Describes(d, row, n) && (row.resume.Some? ==> row.resume.value.offset <= |d.data|)
    ensures ReadsOnFrom(d, row, Begun(d, row))
  {
    if n == 0 { OpenedAtTheStart(d, row); } else { OpenedPastTheStart(d, row, n); }
  }

  lemma ClaimKeepsInvariant(d: Dump, w: World, id: nat)
    requires Invariant(d, w) && Allowed(d, w, Claim(id)) && (w.row.resume.Some? ==> w.row.resume.value.offset <= |d.data|)
    ensures Invariant(d, Do(d, w, Claim(id)))
  {
    var n :| Describes(d, w.row, n);
    OpenedReadsOn(d, w.row, n);
    var row := w.row.(attempt := id);
    assert Describes(d, row, n);
  }

  lemma RowsOfOneMore(d: Dump, events: seq<DumpEvent>, event: DumpEvent)
    requires RowsOf(d.decode, events).Some?
    ensures var all := events + [event];
            RowsOf(d.decode, all) ==
            (if !event.Record? then RowsOf(d.decode, events)
             else if d.decode(event.code, |RowsOf(d.decode, events).value|).None? then None
             else Some(RowsOf(d.decode, events).value + [d.decode(event.code, |RowsOf(d.decode, events).value|).value]))
    ensures PairsOf(events + [event]) == PairsOf(events) + (if event.Slot? then [Pair(event.slot, event.value)] else [])
    ensures SystemSeen(events + [event]) == (event.System? || SystemSeen(events))
  {
    assert (events + [event])[..|events|] == events;
  }

  lemma {:induction false} KeysOfLength(rows: seq<Version>)
    ensures |KeysOf(rows)| == |rows|
  {
    if rows != [] { KeysOfLength(rows[..|rows| - 1]); }
  }

  /** The ledger of one more event is the ledger with that event booked. */
  lemma LedgerOfOneMore(d: Dump, events: seq<DumpEvent>, event: DumpEvent)
    requires RowsOf(d.decode, events).Some? && RowsOf(d.decode, events + [event]).Some?
    ensures LedgerOf(d, events).records == |RowsOf(d.decode, events).value|
    ensures LedgerOf(d, events + [event]) == Booked(d, LedgerOf(d, events), event)
  {
    hide WithRecord, WithSlot, StateOf;
    RowsOfOneMore(d, events, event);
    var rows := RowsOf(d.decode, events).value;
    var keys, pairs, seen := KeysOf(rows), PairsOf(events), SystemSeen(events);
    LedgerRecords(d, events);
    if event.Record? {
      var v := d.decode(event.code, |rows|).value;
      assert (rows + [v])[..|rows|] == rows;
      RecordIsBooked(d.hash, keys, pairs, seen, KeyBytes(v));
    } else if event.Slot? {
      SlotIsBooked(d.hash, keys, pairs, seen, Pair(event.slot, event.value));
    } else if event.System? {
      SeenIsBooked(d.hash, keys, pairs, seen);
    }
    assert pairs + [] == pairs;
  }

  lemma SeenIsBooked(hash: Hash, keys: seq<ByteString>, pairs: seq<Pair>, seen: bool)
    ensures StateOf(hash, keys, pairs, seen).(systemSeen := true) == StateOf(hash, keys, pairs, true)
  {
  }

  lemma LedgerRecords(d: Dump, events: seq<DumpEvent>)
    requires RowsOf(d.decode, events).Some?
    ensures LedgerOf(d, events).records == |RowsOf(d.decode, events).value|
  {
    KeysOfLength(RowsOf(d.decode, events).value);
  }

  /** Taking an event moves the attempt one event on, or refuses what the whole dump would be refused for. */
  lemma TakenReadsOn(d: Dump, row: StateRow, a: Attempt)
    requires ReadsOnFrom(d, row, a) && a.left != [] && Taken(d, a).Some?
    ensures ReadsOnFrom(d, row, Taken(d, a).value)
  {
    hide WithRecord, WithSlot, StateOf, KeysOf, PairsOf, SystemSeen, ReadAll, LedgerOf, Booked;
    var all := Whole(d).events;
    var m := |all| - |a.left|;
    var event, next := a.left[0], Taken(d, a).value;
    assert event == all[m] && all[..m + 1] == all[..m] + [event] && a.left[1..] == all[m + 1..];
    LedgerRecords(d, all[..m]);
    RowsOfOneMore(d, all[..m], event);
    LedgerOfOneMore(d, all[..m], event);
    assert Last(all[..m + 1]) == event;
    var decoded, more := RowsOf(d.decode, all[..m]).value, RowsOf(d.decode, all[..m + 1]).value;
    assert more[..row.imported] == decoded[..row.imported] && more[row.imported..] == next.batch;
  }

  lemma {:induction false} RefusedStaysRefused(d: Dump, events: seq<DumpEvent>, m: nat)
    requires m <= |events| && (RowsOf(d.decode, events[..m]).None? || !RootsMatch(d, events[..m]))
    ensures RowsOf(d.decode, events).None? || !RootsMatch(d, events)
  {
    if m == |events| {
      assert events[..m] == events;
    } else {
      var before := events[..|events| - 1];
      assert before[..m] == events[..m];
      RefusedStaysRefused(d, before, m);
      if !RootsMatch(d, before) {
        var i :| 0 <= i < |before| && before[i].Root? && Lower(before[i].root) != Lower(d.root);
        assert events[i].Root? && Lower(events[i].root) != Lower(d.root);
      }
    }
  }

  /** What the owning attempt refuses, a straight reading refuses. */
  lemma RefusalIsTheDumps(d: Dump, row: StateRow, a: Attempt)
    requires ReadsOnFrom(d, row, a) && a.left != [] && Taken(d, a).None?
    ensures !Acceptable(d)
  {
    hide StateOf, KeysOf, PairsOf, SystemSeen, ReadAll;
    var all := Whole(d).events;
    var m := |all| - |a.left|;
    assert a.left[0] == all[m] && all[..m + 1] == all[..m] + [all[m]] && all[..m + 1][m] == all[m];
    LedgerRecords(d, all[..m]);
    RowsOfOneMore(d, all[..m], all[m]);
    RefusedStaysRefused(d, all, m + 1);
  }

  /** What does not add up for the owning attempt at the end does not add up. */
  lemma RejectionIsTheDumps(d: Dump, row: StateRow, a: Attempt)
    requires ReadsOnFrom(d, row, a) && a.left == []
    requires !AddsUp(a.ledger, d.total) || a.imported + |a.batch| != d.total
    ensures !Acceptable(d)
  {
    var all := Whole(d).events;
    assert all[..|all|] == all;
  }

  lemma RejectKeepsInvariant(d: Dump, w: World, id: nat)
    requires Invariant(d, w) && Allowed(d, w, Reject(id)) && (w.row.resume.Some? ==> w.row.resume.value.offset <= |d.data|)
    ensures Invariant(d, Do(d, w, Reject(id)))
  {
    hide ReadsOnFrom, Acceptable, AddsUp;
    if w.row.phase != Repairing {
      var n :| Describes(d, w.row, n);
      assert Describes(d, RefusedBy(w.row, id), n);
      if id == w.row.attempt && w.row.phase == Walking { RejectionIsTheDumps(d, w.row, w.attempts[id]); }
    }
  }

  lemma TakeKeepsInvariant(d: Dump, w: World, id: nat)
    requires Invariant(d, w) && Allowed(d, w, Take(id)) && (w.row.resume.Some? ==> w.row.resume.value.offset <= |d.data|)
    ensures Invariant(d, Do(d, w, Take(id)))
  {
    var a := w.attempts[id];
    if Taken(d, a).Some? {
      if id == w.row.attempt && w.row.phase == Walking { TakenReadsOn(d, w.row, a); }
    } else if w.row.phase != Repairing {
      var n :| Describes(d, w.row, n);
      assert Describes(d, RefusedBy(w.row, id), n);
      if id == w.row.attempt && w.row.phase == Walking { RefusalIsTheDumps(d, w.row, a); }
    }
  }

  /** A batch that goes in completes the rows of what was read. */
  lemma BatchCompletes(decoded: seq<Version>, imported: nat, batch: seq<Version>)
    requires imported + |batch| == |decoded| && batch == decoded[imported..]
    ensures InsertRows(InsertRows(map[], decoded[..imported]), batch) == InsertRows(map[], decoded)
    ensures decoded[..imported + |batch|] == decoded && decoded[imported + |batch|..] == []
  {
    InsertInTwo(map[], decoded[..imported], batch);
    assert decoded[..imported] + batch == decoded;
  }

  lemma CommitKeepsInvariant(d: Dump, w: World, id: nat)
    requires Invariant(d, w) && Allowed(d, w, Commit(id)) && (w.row.resume.Some? ==> w.row.resume.value.offset <= |d.data|)
    ensures Invariant(d, Do(d, w, Commit(id)))
  {
    hide StateOf, ReadAll, RootsMatch, RowsOf, InsertRows, LedgerOf, Acceptable;
    var a, all := w.attempts[id], Whole(d).events;
    if Owns(w.row, id, a) {
      var n :| Describes(d, w.row, n);
      var m := |all| - |a.left|;
      BatchCompletes(RowsOf(d.decode, all[..m]).value, w.row.imported, a.batch);
      assert Describes(d, Committed(w.row, a), m);
    }
  }

  lemma HandOverKeepsInvariant(d: Dump, w: World, id: nat)
    requires Invariant(d, w) && Allowed(d, w, HandOver(id)) && (w.row.resume.Some? ==> w.row.resume.value.offset <= |d.data|)
    ensures Invariant(d, Do(d, w, HandOver(id)))
  {
    hide StateOf, KeysOf, PairsOf, SystemSeen, LedgerOf, RootsMatch, ReadAll, RowsOf;
    var a, all := w.attempts[id], Whole(d).events;
    if Owns(w.row, id, a) {
      var n :| Describes(d, w.row, n);
      assert all[..|all|] == all;
      var decoded := RowsOf(d.decode, all).value;
      assert decoded[..w.row.imported] == decoded;
    }
  }

  lemma StepKeepsInvariant(d: Dump, w: World, act: Action)
    requires Invariant(d, w) && Allowed(d, w, act)
    ensures w.row.resume.Some? ==> w.row.resume.value.offset <= |d.data|
    ensures Invariant(d, Do(d, w, act))
  {
    InvariantBoundsResume(d, w);
    match act
    case Claim(id) => ClaimKeepsInvariant(d, w, id);
    case RefuseRoot(id) =>
      if w.row.phase != Repairing {
        var n :| Describes(d, w.row, n);
        assert Describes(d, RefusedBy(w.row, id), n);
      }
    case Take(id) => TakeKeepsInvariant(d, w, id);
    case Commit(id) => CommitKeepsInvariant(d, w, id);
    case HandOver(id) => HandOverKeepsInvariant(d, w, id);
    case Reject(id) => RejectKeepsInvariant(d, w, id);
    case Die(id) =>
      if w.row.phase != Repairing { var n :| Describes(d, w.row, n); }
  }

  // ---------------------------------------------------------------------
  // Runs

  ghost predicate IsRun(d: Dump, states: seq<World>, actions: seq<Action>) {
    |states| == |actions| + 1 &&
    forall i :: 0 <= i < |actions| ==>
      Allowed(d, states[i], actions[i]) && (states[i].row.resume.Some? ==> states[i].row.resume.value.offset <= |d.data|) &&
      states[i + 1] == Do(d, states[i], actions[i])
  }

  ghost predicate StartsEmpty(w: World) {
    w.row.imported == 0 && w.row.resume.None? && w.row.rows == map[] && w.row.phase == Walking && w.attempts == map[]
  }

  /** At every moment of every run the stored triple describes exactly a prefix of the dump, until all of it is in. */
  lemma {:induction false} RunsKeepInvariant(d: Dump, states: seq<World>, actions: seq<Action>, i: nat)
    requires IsRun(d, states, actions) && StartsEmpty(states[0]) && i < |states|
    ensures Invariant(d, states[i])
  {
    if i == 0 {
      assert Whole(d).events[..0] == [];
      assert Describes(d, states[0].row, 0);
    } else {
      RunsKeepInvariant(d, states, actions, i - 1);
      StepKeepsInvariant(d, states[i - 1], actions[i - 1]);
    }
  }

  /**
   However often it was stopped, lost, resumed or taken over, and whatever the
   batch sizes, an import ends as one straight reading of the whole dump does:
   it is handed over only when that is, with the same rows, and refused only
   when that is.
   */
  lemma InterruptedEqualsUninterrupted(d: Dump, states: seq<World>, actions: seq<Action>, i: nat)
    requires IsRun(d, states, actions) && StartsEmpty(states[0]) && i < |states|
    ensures states[i].row.phase == Repairing ==> Complete(d, states[i].row)
    ensures states[i].row.phase == Refused ==> !Acceptable(d)
  {
    RunsKeepInvariant(d, states, actions, i);
  }

  /** Two imports of a dump that were both handed over wrote the same rows. */
  lemma ImportsAgree(d: Dump, s1: seq<World>, a1: seq<Action>, s2: seq<World>, a2: seq<Action>)
    requires IsRun(d, s1, a1) && StartsEmpty(s1[0]) && IsRun(d, s2, a2) && StartsEmpty(s2[0])
    requires s1[|a1|].row.phase == Repairing && s2[|a2|].row.phase == Repairing
    ensures s1[|a1|].row.rows == s2[|a2|].row.rows && s1[|a1|].row.imported == s2[|a2|].row.imported
  {
    InterruptedEqualsUninterrupted(d, s1, a1, |a1|);
    InterruptedEqualsUninterrupted(d, s2, a2, |a2|);
  }

  /** A superseded attempt changes nothing any more, whatever it does. */
  lemma SupersededIsFenced(d: Dump, w: World, act: Action)
    requires Allowed(d, w, act) && (w.row.resume.Some? ==> w.row.resume.value.offset <= |d.data|)
    requires !act.Claim? && act.id != w.row.attempt
    ensures Do(d, w, act).row == w.row
  {
  }

  /** The dump's records as versions, in the order of the file. */
  ghost function Records(d: Dump): seq<Version>
    requires Acceptable(d)
  {
    RowsOf(d.decode, Whole(d).events).value
  }

  /** Handed over, the records stand in the order of the ids the system account lists. */
  lemma ImportedRowsAreInIdOrder(d: Dump, row: StateRow) returns (places: seq<nat>)
    requires Complete(d, row) && Injective(d.hash)
    requires forall i :: 0 <= i < |Records(d)| ==> |KeyBytes(Records(d)[i])| == 32
    ensures ListsIds(d.hash, PairsOf(Whole(d).events), KeysOf(Records(d)), places)
    ensures |Records(d)| == d.total
  {
    KeysOfContents(Records(d));
    places := VerifiedRecordsAreInIdOrder(d.hash, KeysOf(Records(d)), PairsOf(Whole(d).events), SystemSeen(Whole(d).events), d.total);
  }

  /** The table holds, for each key among the records, its first record and nothing else. */
  lemma ImportedRowsAreRecords(d: Dump, row: StateRow, k: ByteString)
    requires Complete(d, row)
    ensures k in row.rows <==> exists i :: 0 <= i < |Records(d)| && FirstOfKey(Records(d), i, k)
    ensures forall i :: 0 <= i < |Records(d)| && FirstOfKey(Records(d), i, k) ==> k in row.rows && row.rows[k] == Records(d)[i]
  {
    InsertedFirst(Records(d), k);
  }

  predicate FirstOfKey(vs: seq<Version>, i: nat, k: ByteString)
    requires i < |vs|
  {
    vs[i].entityKey == k && forall j :: 0 <= j < i ==> vs[j].entityKey != k
  }

  lemma {:induction false} InsertedFirst(vs: seq<Version>, k: ByteString)
    ensures k in InsertRows(map[], vs) <==> exists i :: 0 <= i < |vs| && FirstOfKey(vs, i, k)
    ensures forall i :: 0 <= i < |vs| && FirstOfKey(vs, i, k) ==> k in InsertRows(map[], vs) && InsertRows(map[], vs)[k] == vs[i]
  {
    if vs != [] {
      var n := |vs| - 1;
      var before := vs[..n];
      InsertedFirst(before, k);
      forall i | 0 <= i < n ensures FirstOfKey(vs, i, k) <==> FirstOfKey(before, i, k) {
      }
      if k in InsertRows(map[], before) {
        var i :| 0 <= i < n && FirstOfKey(before, i, k);
        assert FirstOfKey(vs, i, k);
      } else if vs[n].entityKey == k {
        forall j | 0 <= j < n ensures vs[j].entityKey != k {
          if vs[j].entityKey == k { FirstExists(before, j, k); }
        }
        assert FirstOfKey(vs, n, k);
      }
    }
  }

  lemma {:induction false} FirstExists(vs: seq<Version>, j: nat, k: ByteString)
    requires j < |vs| && vs[j].entityKey == k
    ensures exists i :: 0 <= i < |vs| && FirstOfKey(vs, i, k)
  {
    if i :| 0 <= i < j && vs[i].entityKey == k {
      FirstExists(vs, i, k);
    } else {
      assert FirstOfKey(vs, j, k);
    }
  }

  lemma {:induction false} KeysOfContents(rows: seq<Version>)
    ensures |KeysOf(rows)| == |rows|
    ensures forall i :: 0 <= i < |rows| ==> KeysOf(rows)[i] == KeyBytes(rows[i])
  {
    if rows != [] { KeysOfContents(rows[..|rows| - 1]); }
  }

  // ---------------------------------------------------------------------
  // One attempt, as the source runs it

  lemma RefusalKeepsPrefix(d: Dump, row: StateRow)
    requires HasPrefix(d, row)
    ensures HasPrefix(d, row.(phase := Refused))
  {
    var n :| Describes(d, row, n);
    assert Describes(d, row.(phase := Refused), n);
  }

  /** A line's own event leaves an attempt at a boundary. */
  lemma EndOfLine(d: Dump, row: StateRow, a: Attempt)
    requires ReadsOnFrom(d, row, a) && a.left != [] && Taken(d, a).Some?
    ensures !a.left[0].Slot? ==> Boundary(d, Taken(d, a).value)
  {
    hide RowsOf, LedgerOf, Booked, Refuses, RootsMatch;
    var all := Whole(d).events;
    var m := |all| - |a.left|;
    assert all[..m + 1][m] == all[m] == a.left[0];
  }

  /** A reading that does not throw ends with a line's own event. */
  lemma {:induction false} ReadingEndsALine(json: ByteString -> Json, s: ByteString, at: nat, line: nat)
    ensures ReadAll(json, s, at, line).failed.None? ==> AtBoundary(ReadAll(json, s, at, line).events)
    decreases |s|
  {
    hide Scan, LineLength;
    if s != [] {
      ReadingEndsALine(json, s[LineSpan(s)..], at + LineSpan(s), line + 1);
    }
  }

  lemma TakenOn(d: Dump, row: StateRow, a: Attempt)
    requires ReadsOnFrom(d, row, a) && a.left != []
    ensures Taken(d, a).Some? ==> ReadsOnFrom(d, row, Taken(d, a).value)
    ensures Taken(d, a).Some? && !a.left[0].Slot? ==> Boundary(d, Taken(d, a).value)
  {
    if Taken(d, a).Some? {
      TakenReadsOn(d, row, a);
      EndOfLine(d, row, a);
    }
  }

  class ImportStore {
    var row: StateRow

    constructor (row: StateRow)
      ensures this.row == row
    {
      this.row := row;
    }
  }

  /** How a run ends: handed over; stopped by a signal; refused for good; or thrown out of by JSON that does not parse. */
  datatype Ending = HandedOver | Stopped | Failed | Thrown

  ghost predicate HasPrefix(d: Dump, row: StateRow) {
    exists n :: Describes(d, row, n)
  }

  lemma CommitByOwner(d: Dump, row: StateRow, id: nat, a: Attempt)
    requires HasRoot(d) && Owns(row, id, a) && Boundary(d, a) && HasPrefix(d, row) && ReadsOnFrom(d, row, a)
    ensures HasPrefix(d, Committed(row, a))
    ensures ReadsOnFrom(d, Committed(row, a), a.(imported := a.imported + |a.batch|, batch := []))
  {
    hide RowsOf, StateOf, ReadAll, Describes, ReadsOnFrom;
    var w := World(row, map[id := a]);
    InvariantBoundsResume(d, w);
    CommitKeepsInvariant(d, w, id);
    assert Do(d, w, Commit(id)).attempts[id] == a.(imported := a.imported + |a.batch|, batch := []);
  }

  lemma SeenIsKept(hash: Hash, keys: seq<ByteString>, pairs: seq<Pair>, seen: bool)
    ensures StateOf(hash, keys, pairs, seen).systemSeen == seen
  {
  }

  /** What an attempt's ledger has booked: the records and slots before what is left to read. */
  ghost predicate HasBooked(d: Dump, a: Attempt) {
    var all := Whole(d).events;
    |a.left| <= |all| &&
    var events := all[..|all| - |a.left|];
    RowsOf(d.decode, events).Some? &&
    a.ledger == StateOf(d.hash, KeysOf(RowsOf(d.decode, events).value), PairsOf(events), a.ledger.systemSeen)
  }

  lemma ClaimStartsAsRow(d: Dump, row: StateRow, id: nat)
    requires HasPrefix(d, row) && (row.resume.Some? ==> row.resume.value.offset <= |d.data|)
    ensures HasPrefix(d, row.(attempt := id))
    ensures ReadsOnFrom(d, row.(attempt := id), Begun(d, row.(attempt := id)))
    ensures HasBooked(d, Begun(d, row.(attempt := id)))
  {
    hide ReadAll, Begun, StateOf;
    var n :| Describes(d, row, n);
    assert Describes(d, row.(attempt := id), n);
    OpenedReadsOn(d, row.(attempt := id), n);
    var a, all := Begun(d, row.(attempt := id)), Whole(d).events;
    var events := all[..|all| - |a.left|];
    SeenIsKept(d.hash, KeysOf(RowsOf(d.decode, events).value), PairsOf(events), SystemSeen(events));
  }

  class DumpImporter {
    const d: Dump
    const id: nat
    const store: ImportStore
    const ledger: GenesisIdLedger
    var imported: nat
    var batch: seq<Version>
    var offset: nat
    var line: nat
    /** The attempt these variables stand for. */
    ghost var a: Attempt

    lemma ReadsTheRest()
      requires Valid()
      ensures a.broken == Whole(d).failed.Some? && |a.left| <= |Whole(d).events|
    {
    }

    ghost predicate Valid()
      reads this, store, ledger
    {
      && ledger.Valid() && ledger.hash == d.hash && a.ledger == ledger.State()
      && a.imported == imported && a.batch == batch && a.offset == offset && a.line == line
      && Owns(store.row, id, a) && HasPrefix(d, store.row) && ReadsOnFrom(d, store.row, a)
    }

    /** The claim: the row is this attempt's from here on, and the run starts where the row says. */
    constructor (d: Dump, store: ImportStore, id: nat)
      requires store.row.phase == Walking && HasPrefix(d, store.row)
      requires store.row.resume.Some? ==> store.row.resume.value.offset <= |d.data|
      modifies store
      ensures Valid() && this.d == d && this.id == id && this.store == store && fresh(ledger)
      ensures store.row == old(store.row).(attempt := id) && a == Begun(d, store.row)
    {
      hide ReadAll, StateOf, Describes, RowsOf, ReadsOnFrom;
      ClaimStartsAsRow(d, store.row, id);
      var resume := store.row.resume;
      ghost var all := Whole(d).events;
      ghost var begun := Begun(d, store.row.(attempt := id));
      this.d, this.id, this.store := d, id, store;
      imported, batch := store.row.imported, [];
      offset := if resume.Some? then resume.value.offset else 0;
      line := if resume.Some? then resume.value.line else 1;
      ledger := new GenesisIdLedger.Resume(d.hash, if resume.Some? then resume.value.ledger else FreshLedger(),
                                           KeysOf(RowsOf(d.decode, all[..|all| - |begun.left|]).value),
                                           PairsOf(all[..|all| - |begun.left|]));
      a := begun;
      new;
      store.row := store.row.(attempt := id);
    }

    /** The loop's `switch`: the ledger books the event, a record is decoded at its ordinal. */
    method Take(event: DumpEvent) returns (taken: bool)
      requires Valid() && a.left != [] && a.left[0] == event
      modifies this, ledger
      ensures taken <==> Taken(d, old(a)).Some?
      ensures !taken ==> !Acceptable(d)
      ensures taken ==> Valid() && a == Taken(d, old(a)).value && (!event.Slot? ==> Boundary(d, a))
    {
      hide RowsOf, StateOf, ReadAll, Describes, ReadsOnFrom, Boundary, WithSlot, WithRecord;
      TakenOn(d, store.row, a);
      if Taken(d, a).None? { RefusalIsTheDumps(d, store.row, a); }
      if event.Record? {
        var version := d.decode(event.code, ledger.records);
        if version.None? { return false; }
        var _ := ledger.AddRecord(KeyBytes(version.value));
        batch := batch + [version.value];
      } else if event.Root? {
        if Lower(event.root) != Lower(d.root) { return false; }
      } else if event.Slot? {
        ledger.AddSlot(event.slot, event.value);
      } else if event.System? {
        ledger.MarkSystemSeen();
      }
      if !event.Slot? { offset, line := event.end, event.line + 1; }
      a := Taken(d, a).value;
      return true;
    }

    /** `commit`: the batch's rows and the new resume point, in one transaction. */
    method Commit()
      requires Valid() && HasRoot(d) && Boundary(d, a)
      modifies this, store
      ensures Valid() && batch == [] && a.left == old(a.left) && a.broken == old(a.broken) && a.ledger == old(a.ledger)
      ensures store.row == Committed(old(store.row), old(a)) && Boundary(d, a)
    {
      hide RowsOf, StateOf, ReadAll, Describes, ReadsOnFrom;
      ghost var after := a.(imported := a.imported + |a.batch|, batch := []);
      CommitByOwner(d, store.row, id, a);
      store.row := store.row.(imported := imported + |batch|, resume := Some(ResumePoint(offset, line, ledger.State())),
                              rows := InsertRows(store.row.rows, batch));
      imported, batch := imported + |batch|, [];
      a := after;
    }

    /** The failed state, which no later attempt resumes. */
    method Fail()
      requires store.row.phase == Walking && store.row.attempt == id && HasPrefix(d, store.row)
      modifies store
      ensures store.row == RefusedBy(old(store.row), id) && HasPrefix(d, store.row)
    {
      RefusalKeepsPrefix(d, store.row);
      store.row := store.row.(phase := Refused);
    }

    /** Verify, commit the rest, and hand over to the repair. */
    method Finish() returns (done: bool)
      requires Valid() && HasRoot(d) && a.left == [] && !a.broken
      modifies this, store
      ensures done ==> store.row.phase == Repairing && Complete(d, store.row)
      ensures !done ==> store.row == old(store.row) && !Acceptable(d)
    {
      hide StateOf, ReadAll, Describes, HasRoot, RootsMatch;
      var ok := ledger.Verify(d.total);
      if !ok || imported + |batch| != d.total {
        RejectionIsTheDumps(d, store.row, a);
        return false;
      }
      assert Boundary(d, a) by { WholeEndsALine(); }
      Commit();
      ghost var w := World(store.row, map[id := a]);
      InvariantBoundsResume(d, w);
      HandOverKeepsInvariant(d, w, id);
      assert Do(d, w, HandOver(id)).row == store.row.(phase := Repairing, resume := None);
      store.row := store.row.(phase := Repairing, resume := None);
      return true;
    }

    lemma WholeEndsALine()
      requires Valid() && a.left == [] && !a.broken
      ensures Boundary(d, a)
    {
      ReadingEndsALine(d.json, d.data, 0, 1);
      var all := Whole(d).events;
      assert all[..|all|] == all;
    }
  }

  /**
   `importGenesisDumpLocked`: claim, check the dump's root, read on in whatever chunks the bytes come,
   commit batch by batch, stop at a line's end when told to, verify and hand
   over. However it ends, the row describes a prefix; handed over, all of it. A
   dump a straight reading accepts is handed over unless a stop comes first,
   from whatever point of it this run resumes.
   */
  method ImportGenesisDump(d: Dump, start: seq<ByteString>, chunks: seq<ByteString>, store: ImportStore, id: nat, batchEntities: nat, stopAfter: nat)
    returns (ending: Ending)
    requires store.row.phase == Walking && HasPrefix(d, store.row)
    requires store.row.resume.Some? ==> store.row.resume.value.offset <= |d.data|
    requires Flatten(start) == d.data
    requires Flatten(chunks) == d.data[if store.row.resume.Some? then store.row.resume.value.offset else 0..]
    modifies store
    ensures ending == HandedOver ==> store.row.phase == Repairing && Complete(d, store.row)
    ensures ending == Failed ==> store.row.phase == Refused && !Acceptable(d)
    ensures ending == Thrown ==> Whole(d).failed == Some(BadJson)
    ensures RootRefused(d) ==> ending == Failed
    ensures ending == Stopped ==> stopAfter <= |Whole(d).events|
    ensures ending == Stopped || ending == Thrown ==> store.row.phase == Walking
    ensures Acceptable(d) && |Whole(d).events| < stopAfter ==> ending == HandedOver
    ensures ending != HandedOver ==> HasPrefix(d, store.row)
  {
    hide StateOf, ReadAll, Describes, RowsOf, ReadsOnFrom, LedgerOf, Complete;
    var offset := if store.row.resume.Some? then store.row.resume.value.offset else 0;
    var line := if store.row.resume.Some? then store.row.resume.value.line else 1;
    var importer := new DumpImporter(d, store, id);
    var root := ReadDumpRoot(d.json, start);
    if root.Unreadable? { return Thrown; }
    if root.NoRoot? || Lower(root.root) != Lower(d.root) {
      importer.Fail();
      return Failed;
    }
    RootedIsNotRefused(d.json, d.data);
    var events, failed := ReadGenesisDump(d.json, chunks, offset, line);
    importer.ReadsTheRest();
    var taken := 0;
    while taken < |events|
      invariant taken <= |events| && importer.Valid() && importer.a.left == events[taken..] && importer.a.broken == failed.Some?
      invariant importer.d == d && importer.id == id && importer.store == store && fresh(importer) && fresh(importer.ledger)
    {
      var event := events[taken];
      var fits := importer.Take(event);
      if !fits {
        importer.Fail();
        return Failed;
      }
      taken := taken + 1;
      if event.Record? && |importer.batch| >= batchEntities { importer.Commit(); }
      if !event.Slot? && taken >= stopAfter {
        if |importer.batch| > 0 { importer.Commit(); }
        return Stopped;
      }
    }
    if failed.Some? {
      importer.ReadsTheRest();
      assert Whole(d).failed.Some? && Whole(d).failed.value != Refusal;
      return Thrown;
    }
    var done := importer.Finish();
    if !done {
      importer.Fail();
      return Failed;
    }
    return HandedOver;
  }
}
