/**
 Pairing a transaction's operations with the events its receipt carries:
 `attachEventsToOps` and `decodeEvent` (src/entityIndex.ts) and the scanner's
 `fillCreateEntityKeys` (src/arkivOperations.ts), which pairs creates the same
 way to learn their entity keys.
 */
module EventPairing {
  import opened Wrappers
  import opened ByteStrings
  import opened EntityIndex

  datatype EventKind = Created | Patched | ExpiryExtended | OwnershipTransferred | Deleted

  /** A log's first topic: the signature hash of an engine event, or anything else. */
  datatype Topic = Engine(kind: EventKind) | Foreign(hash: ByteString)

  /** A stored receipt log; the data is kept as its first two 32-byte words, where it has them. */
  datatype Log = Log(
    logIndex: nat, address: ByteString,
    topic0: Option<Topic>, topic1: Option<ByteString>, topic3: Option<ByteString>,
    word0: Option<nat>, word1: Option<nat>)

  /** "0x44", eighteen zero bytes, "44", in ASCII. */
  const REGISTRY_ADDRESS: ByteString :=
    [48, 120, 52, 52,
     48, 48, 48, 48, 48, 48, 48, 48, 48, 48, 48, 48, 48, 48, 48, 48, 48, 48,
     48, 48, 48, 48, 48, 48, 48, 48, 48, 48, 48, 48, 48, 48, 48, 48, 48, 48,
     52, 52]

  function KindOf(operationType: int): Option<EventKind> {
    if operationType == CREATE then Some(Created)
    else if operationType == PATCH then Some(Patched)
    else if operationType == EXTEND then Some(ExpiryExtended)
    else if operationType == TRANSFER then Some(OwnershipTransferred)
    else if operationType == DELETE then Some(Deleted)
    else None
  }

  /** The expiry is a uint64 and the flags a uint8; a wider word faults, and a missing one reads as no event. */
  function DecodeEvent(kind: EventKind, log: Log): Outcome<Option<Event>> {
    match kind
    case Created =>
      if log.word0.Some? && log.word0.value > U64_MAX then Fault
      else if log.word1.Some? && log.word1.value > 0xff then Fault
      else if log.word0.None? then Ok(None)
      else Ok(Some(Event(log.word0, log.word1, None)))
    case ExpiryExtended =>
      if log.word0.Some? && log.word0.value > U64_MAX then Fault
      else if log.word0.None? then Ok(None)
      else Ok(Some(Event(log.word0, None, None)))
    case OwnershipTransferred =>
      if log.topic3.None? || |log.topic3.value| != 66 then Ok(None)
      else Ok(Some(Event(None, None, Some([48, 120] + Lower(log.topic3.value)[26..]))))
    case _ => Ok(Some(Event(None, None, None)))
  }

  predicate IsRegistryEvent(log: Log) {
    Lower(log.address) == REGISTRY_ADDRESS && log.topic0.Some? && log.topic0.value.Engine?
  }

  /** The registry's events of one kind, in log order. */
  function KindLogs(logs: seq<Log>, kind: EventKind): seq<Log> {
    if logs == [] then []
    else
      var last := Last(logs);
      KindLogs(logs[..|logs| - 1], kind) +
      (if Lower(last.address) == REGISTRY_ADDRESS && last.topic0 == Some(Engine(kind)) then [last] else [])
  }

  function CountKind(ops: seq<Op>, kind: EventKind): nat {
    if ops == [] then 0
    else CountKind(ops[..|ops| - 1], kind) + (if KindOf(Last(ops).operationType) == Some(kind) then 1 else 0)
  }

  /** The log an operation is paired with: the n-th of its kind for the n-th operation of that kind. */
  function PairedLog(ops: seq<Op>, i: nat, logs: seq<Log>): Option<Log>
    requires i < |ops|
  {
    var kind := KindOf(ops[i].operationType);
    if kind.None? then None else
    var n, queue := CountKind(ops[..i], kind.value), KindLogs(logs, kind.value);
    if n < |queue| then Some(queue[n]) else None
  }

  predicate SameKey(log: Log, op: Op) {
    log.topic1.Some? && Lower(log.topic1.value) == Lower(op.entityKey)
  }

  /** The event an operation gets: its paired log's, unless the entity keys disagree. */
  function EventFor(ops: seq<Op>, i: nat, logs: seq<Log>): Outcome<Option<Event>>
    requires i < |ops|
  {
    var log := PairedLog(ops, i, logs);
    if log.None? || !SameKey(log.value, ops[i]) then Ok(None)
    else DecodeEvent(KindOf(ops[i].operationType).value, log.value)
  }

  function WithEvent(op: Op, event: Option<Event>): Op {
    if event.Some? then op.(event := event) else op
  }

  /** All operations of a transaction, in operation order, with their events. */
  function Attached(ops: seq<Op>, logs: seq<Log>): Outcome<seq<Op>> {
    if ops == [] then Ok([])
    else
      var before :- Attached(ops[..|ops| - 1], logs);
      var event :- EventFor(ops, |ops| - 1, logs);
      Ok(before + [WithEvent(Last(ops), event)])
  }

  // ---------------------------------------------------------------------
  // The loops

  method QueueLogs(logs: seq<Log>) returns (queues: Queues)
    ensures forall kind :: Queue(queues, kind) == KindLogs(logs, kind)
  {
    queues := map[];
    for i := 0 to |logs|
      invariant forall kind :: Queue(queues, kind) == KindLogs(logs[..i], kind)
    {
      var log := logs[i];
      assert logs[..i + 1][..i] == logs[..i];
      if Lower(log.address) == REGISTRY_ADDRESS && log.topic0.Some? {
        var topic0 := log.topic0.value;
        queues := queues[topic0 := if topic0 in queues then queues[topic0] + [log] else [log]];
      }
    }
    assert logs[..|logs|] == logs;
  }

  lemma {:induction false} AttachedFaultsEarly(ops: seq<Op>, logs: seq<Log>, i: nat)
    requires i <= |ops| && Attached(ops[..i], logs).Fault?
    ensures Attached(ops, logs).Fault?
  {
    if i == |ops| {
      assert ops[..i] == ops;
    } else {
      assert ops[..|ops| - 1][..i] == ops[..i];
      AttachedFaultsEarly(ops[..|ops| - 1], logs, i);
    }
  }

  type Queues = map<Topic, seq<Log>>

  function Queue(queues: Queues, kind: EventKind): seq<Log> {
    if Engine(kind) in queues then queues[Engine(kind)] else []
  }

  /** What is left of a queue once `n` operations of its kind have taken from it. */
  function Taken(queue: seq<Log>, n: nat): seq<Log> {
    if n <= |queue| then queue[n..] else []
  }

  /** `queues.get(topic0)?.shift()` and what becomes of the log it takes. */
  method TakeEvent(queues: Queues, op: Op) returns (left: Queues, event: Outcome<Option<Event>>)
    ensures forall kind ::
              Queue(left, kind) == if KindOf(op.operationType) == Some(kind) then Taken(Queue(queues, kind), 1) else Queue(queues, kind)
    ensures event ==
            if KindOf(op.operationType).None? then Ok(None) else
            var kind := KindOf(op.operationType).value;
            if Queue(queues, kind) == [] || !SameKey(Queue(queues, kind)[0], op) then Ok(None)
            else DecodeEvent(kind, Queue(queues, kind)[0])
  {
    var kind := KindOf(op.operationType);
    if kind.None? || Queue(queues, kind.value) == [] {
      return queues, Ok(None);
    }
    var queue := queues[Engine(kind.value)];
    var log := queue[0];
    left := queues[Engine(kind.value) := queue[1..]];
    event := if SameKey(log, op) then DecodeEvent(kind.value, log) else Ok(None);
  }

  lemma AttachedNext(ops: seq<Op>, i: nat, logs: seq<Log>)
    requires i < |ops|
    ensures Attached(ops[..i + 1], logs) ==
            if Attached(ops[..i], logs).Fault? || EventFor(ops, i, logs).Fault? then Fault
            else Ok(Attached(ops[..i], logs).value + [WithEvent(ops[i], EventFor(ops, i, logs).value)])
  {
    var upto := ops[..i + 1];
    assert upto[..i] == ops[..i] && Last(upto) == ops[i];
    assert EventFor(upto, i, logs) == EventFor(ops, i, logs);
  }

  lemma QueuesAdvance(ops: seq<Op>, i: nat, logs: seq<Log>, before: Queues, after: Queues)
    requires i < |ops|
    requires forall kind :: Queue(before, kind) == Taken(KindLogs(logs, kind), CountKind(ops[..i], kind))
    requires forall kind ::
               Queue(after, kind) ==
               if KindOf(ops[i].operationType) == Some(kind) then Taken(Queue(before, kind), 1) else Queue(before, kind)
    ensures forall kind :: Queue(after, kind) == Taken(KindLogs(logs, kind), CountKind(ops[..i + 1], kind))
  {
    assert ops[..i + 1][..i] == ops[..i];
  }

  /** `attachEventsToOps`, on operations and logs in their stored order. */
  method AttachEventsToOps(ops: seq<Op>, logs: seq<Log>) returns (r: Outcome<seq<Op>>)
    ensures r == Attached(ops, logs)
  {
    var queues := QueueLogs(logs);
    var attached: seq<Op> := [];
    for i := 0 to |ops|
      invariant Attached(ops[..i], logs) == Ok(attached)
      invariant forall kind :: Queue(queues, kind) == Taken(KindLogs(logs, kind), CountKind(ops[..i], kind))
    {
      var event: Outcome<Option<Event>>;
      ghost var before := queues;
      queues, event := TakeEvent(queues, ops[i]);
      AttachedNext(ops, i, logs);
      QueuesAdvance(ops, i, logs, before, queues);
      assert event == EventFor(ops, i, logs);
      if event.Fault? {
        AttachedFaultsEarly(ops, logs, i + 1);
        return Fault;
      }
      attached := attached + [WithEvent(ops[i], event.value)];
    }
    assert ops[..|ops|] == ops;
    return Ok(attached);
  }

  // ---------------------------------------------------------------------
  // What the pairing guarantees, with no assumption on the receipt

  lemma {:induction false} KindLogsAreOfKind(logs: seq<Log>, kind: EventKind)
    ensures forall log :: log in KindLogs(logs, kind) ==>
              log in logs && IsRegistryEvent(log) && log.topic0 == Some(Engine(kind))
  {
    if logs != [] {
      KindLogsAreOfKind(logs[..|logs| - 1], kind);
    }
  }

  lemma {:induction false} AttachedOneByOne(ops: seq<Op>, logs: seq<Log>)
    requires Attached(ops, logs).Ok?
    ensures var r := Attached(ops, logs).value;
            |r| == |ops| &&
            forall i :: 0 <= i < |ops| ==>
              EventFor(ops, i, logs).Ok? && r[i] == WithEvent(ops[i], EventFor(ops, i, logs).value)
  {
    if ops != [] {
      var before := ops[..|ops| - 1];
      AttachedOneByOne(before, logs);
      forall i | 0 <= i < |before| ensures EventFor(before, i, logs) == EventFor(ops, i, logs) {
        assert before[..i] == ops[..i];
      }
    }
  }

  /** An attached event is that of a registry log with the operation's own kind and entity key. */
  lemma AttachedEventIsOwn(ops: seq<Op>, logs: seq<Log>, i: nat)
    requires Attached(ops, logs).Ok? && i < |ops| && ops[i].event.None?
    requires |Attached(ops, logs).value| == |ops| && Attached(ops, logs).value[i].event.Some?
    ensures exists log ::
              log in logs && IsRegistryEvent(log) && SameKey(log, ops[i]) &&
              KindOf(ops[i].operationType) == Some(log.topic0.value.kind) &&
              DecodeEvent(log.topic0.value.kind, log) == Ok(Attached(ops, logs).value[i].event)
  {
    AttachedOneByOne(ops, logs);
    var log := PairedLog(ops, i, logs).value;
    KindLogsAreOfKind(logs, KindOf(ops[i].operationType).value);
    assert log in logs;
  }

  lemma {:induction false} CountKindGrows(ops: seq<Op>, i: nat, j: nat, kind: EventKind)
    requires i < j <= |ops| && KindOf(ops[i].operationType) == Some(kind)
    ensures CountKind(ops[..i], kind) < CountKind(ops[..j], kind)
  {
    assert ops[..j][..j - 1] == ops[..j - 1];
    if i < j - 1 {
      CountKindGrows(ops, i, j - 1, kind);
    } else {
      assert ops[..j - 1] == ops[..i];
    }
  }

  ghost predicate DistinctIndices(logs: seq<Log>) {
    forall i, j :: 0 <= i < j < |logs| ==> logs[i].logIndex != logs[j].logIndex
  }

  /** A kind's queue holds different logs at different places. */
  lemma {:induction false} KindLogsAreDistinct(logs: seq<Log>, kind: EventKind)
    requires DistinctIndices(logs)
    ensures DistinctIndices(KindLogs(logs, kind))
  {
    if logs != [] {
      var before := logs[..|logs| - 1];
      KindLogsAreDistinct(before, kind);
      KindLogsAreOfKind(before, kind);
      forall i | 0 <= i < |KindLogs(before, kind)| ensures KindLogs(before, kind)[i].logIndex != Last(logs).logIndex {
        assert KindLogs(before, kind)[i] in before;
      }
    }
  }

  /** No log is used twice: two operations of a transaction, of one kind or of two, are never paired with the same log. */
  lemma NoLogUsedTwice(ops: seq<Op>, i: nat, j: nat, logs: seq<Log>)
    requires i < j < |ops| && DistinctIndices(logs)
    requires PairedLog(ops, i, logs).Some? && PairedLog(ops, j, logs).Some?
    ensures PairedLog(ops, i, logs).value != PairedLog(ops, j, logs).value
  {
    var kind, other := KindOf(ops[i].operationType).value, KindOf(ops[j].operationType).value;
    KindLogsAreOfKind(logs, kind);
    KindLogsAreOfKind(logs, other);
    assert PairedLog(ops, i, logs).value in KindLogs(logs, kind) && PairedLog(ops, j, logs).value in KindLogs(logs, other);
    if kind == other {
      CountKindGrows(ops, i, j, kind);
      KindLogsAreDistinct(logs, kind);
    }
  }

  // ---------------------------------------------------------------------
  // A receipt with one registry event per operation, in order

  /** The registry's engine events, in log order. */
  function RegistryEvents(logs: seq<Log>): seq<Log> {
    if logs == [] then []
    else RegistryEvents(logs[..|logs| - 1]) + (if IsRegistryEvent(Last(logs)) then [Last(logs)] else [])
  }

  ghost predicate OneEventPerOp(ops: seq<Op>, events: seq<Log>) {
    |events| == |ops| &&
    forall i :: 0 <= i < |ops| ==>
      IsRegistryEvent(events[i]) && SameKey(events[i], ops[i]) &&
      KindOf(ops[i].operationType) == Some(events[i].topic0.value.kind)
  }

  lemma {:induction false} KindLogsOfRegistryEvents(logs: seq<Log>, kind: EventKind)
    ensures KindLogs(RegistryEvents(logs), kind) == KindLogs(logs, kind)
  {
    if logs != [] {
      var before := RegistryEvents(logs[..|logs| - 1]);
      KindLogsOfRegistryEvents(logs[..|logs| - 1], kind);
      if IsRegistryEvent(Last(logs)) {
        var events := RegistryEvents(logs);
        assert events == before + [Last(logs)] && events[..|events| - 1] == before;
      } else {
        assert RegistryEvents(logs) == before + [] == before;
      }
    }
  }

  lemma {:induction false} NthOfKind(ops: seq<Op>, events: seq<Log>, i: nat, kind: EventKind)
    requires OneEventPerOp(ops, events) && i < |ops| && KindOf(ops[i].operationType) == Some(kind)
    ensures CountKind(ops, kind) == |KindLogs(events, kind)|
    ensures CountKind(ops[..i], kind) < |KindLogs(events, kind)| && KindLogs(events, kind)[CountKind(ops[..i], kind)] == events[i]
    decreases |ops|
  {
    var n := |ops| - 1;
    if i == n {
      CountMatches(ops[..n], events[..n], kind);
    } else {
      assert ops[..n][..i] == ops[..i];
      NthOfKind(ops[..n], events[..n], i, kind);
    }
  }

  lemma {:induction false} CountMatches(ops: seq<Op>, events: seq<Log>, kind: EventKind)
    requires OneEventPerOp(ops, events)
    ensures CountKind(ops, kind) == |KindLogs(events, kind)|
  {
    if ops != [] {
      var n := |ops| - 1;
      CountMatches(ops[..n], events[..n], kind);
    }
  }

  /** Then each operation gets its own event, whatever other contracts logged in between. */
  lemma EachOpGetsItsEvent(ops: seq<Op>, logs: seq<Log>, i: nat)
    requires OneEventPerOp(ops, RegistryEvents(logs)) && i < |ops|
    ensures EventFor(ops, i, logs) == DecodeEvent(KindOf(ops[i].operationType).value, RegistryEvents(logs)[i])
  {
    var kind := KindOf(ops[i].operationType).value;
    NthOfKind(ops, RegistryEvents(logs), i, kind);
    KindLogsOfRegistryEvents(logs, kind);
  }

  // ---------------------------------------------------------------------
  // The scanner's filling of create keys

  /** A stored operation row, before it is joined with its transaction. */
  datatype OperationRow = OperationRow(
    opIndex: nat, operationType: int, entityKey: Option<ByteString>, creationFlags: Option<nat>,
    attributes: seq<Cell>, expiresAt: Option<nat>, minLifetime: Option<nat>, newOwner: Option<ByteString>)

  function CountCreates(rows: seq<OperationRow>): nat {
    if rows == [] then 0
    else CountCreates(rows[..|rows| - 1]) + (if Last(rows).operationType == CREATE then 1 else 0)
  }

  /** The second topics of some logs, skipping the logs that have none. */
  function SecondTopics(logs: seq<Log>): seq<ByteString> {
    if logs == [] then []
    else SecondTopics(logs[..|logs| - 1]) + (if Last(logs).topic1.Some? then [Last(logs).topic1.value] else [])
  }

  /** The key a row has after filling: a keyless create takes the key at its place among the creates. */
  function FilledRow(rows: seq<OperationRow>, i: nat, keys: seq<ByteString>): OperationRow
    requires i < |rows| && CountCreates(rows) == |keys|
  {
    var n := CountCreates(rows[..i]);
    if rows[i].operationType == CREATE && rows[i].entityKey.None? && n < |keys|
    then rows[i].(entityKey := Some(Lower(keys[n])))
    else rows[i]
  }

  function FilledRows(rows: seq<OperationRow>, keys: seq<ByteString>): seq<OperationRow>
    requires CountCreates(rows) == |keys|
  {
    seq(|rows|, i requires 0 <= i < |rows| => FilledRow(rows, i, keys))
  }

  /** The counts must agree, or no key is filled at all. */
  function Filled(rows: seq<OperationRow>, logs: seq<Log>): seq<OperationRow> {
    if CountCreates(rows) == 0 || CountCreates(rows) != |SecondTopics(KindLogs(logs, Created))| then rows
    else FilledRows(rows, SecondTopics(KindLogs(logs, Created)))
  }

  lemma {:induction false} CountCreatesGrows(rows: seq<OperationRow>, i: nat)
    requires i < |rows|
    ensures CountCreates(rows[..i]) + (if rows[i].operationType == CREATE then 1 else 0) <= CountCreates(rows)
  {
    assert rows[..|rows| - 1][..i] == rows[..i] || i == |rows| - 1;
    if i < |rows| - 1 {
      CountCreatesGrows(rows[..|rows| - 1], i);
    }
  }

  method FillCreateEntityKeys(operations: array<OperationRow>, receiptLogs: Option<seq<Log>>)
    modifies operations
    ensures operations[..] == if receiptLogs.None? then old(operations[..]) else Filled(old(operations[..]), receiptLogs.value)
  {
    ghost var rows := operations[..];
    var creates := 0;
    for i := 0 to operations.Length
      invariant creates == CountCreates(rows[..i])
    {
      assert rows[..i + 1][..i] == rows[..i];
      if operations[i].operationType == CREATE { creates := creates + 1; }
    }
    assert rows[..operations.Length] == rows;
    if creates == 0 || receiptLogs.None? { return; }
    var createdKeys := SecondTopics(KindLogs(receiptLogs.value, Created));
    if |createdKeys| != creates { return; }
    var index := 0;
    for i := 0 to operations.Length
      invariant index == CountCreates(rows[..i])
      invariant forall j :: 0 <= j < i ==> operations[j] == FilledRow(rows, j, createdKeys)
      invariant forall j :: i <= j < operations.Length ==> operations[j] == rows[j]
    {
      assert rows[..i + 1][..i] == rows[..i];
      CountCreatesGrows(rows, i);
      if operations[i].operationType == CREATE {
        if operations[i].entityKey.None? {
          operations[i] := operations[i].(entityKey := Some(Lower(createdKeys[index])));
        }
        index := index + 1;
      }
    }
  }

  // ---------------------------------------------------------------------
  // Filled keys and attached events agree, exactly when the logs have their topics

  lemma {:induction false} SecondTopicsOfFull(logs: seq<Log>, n: nat)
    requires n <= |logs| && forall j :: 0 <= j < n ==> logs[j].topic1.Some?
    ensures n <= |SecondTopics(logs)| && forall j :: 0 <= j < n ==> SecondTopics(logs)[j] == logs[j].topic1.value
  {
    if n > 0 {
      if n < |logs| {
        SecondTopicsOfFull(logs[..|logs| - 1], n);
      } else {
        SecondTopicsOfFull(logs[..|logs| - 1], n - 1);
        SecondTopicsAreNoMore(logs[..|logs| - 1]);
      }
    }
  }

  lemma {:induction false} SecondTopicsAreNoMore(logs: seq<Log>)
    ensures |SecondTopics(logs)| <= |logs|
  {
    if logs != [] {
      SecondTopicsAreNoMore(logs[..|logs| - 1]);
    }
  }

  lemma LowerTwice(s: ByteString)
    ensures Lower(Lower(s)) == Lower(s)
  {
  }

  /** The rows' operations as the fold sees them, keys and kinds aligned with the rows. */
  ghost predicate ReadFrom(ops: seq<Op>, rows: seq<OperationRow>) {
    |ops| == |rows| &&
    forall i :: 0 <= i < |ops| ==>
      ops[i].operationType == rows[i].operationType && rows[i].entityKey == Some(ops[i].entityKey)
  }

  lemma {:induction false} CreatesCounted(ops: seq<Op>, rows: seq<OperationRow>, i: nat)
    requires |ops| == |rows| && i <= |ops| && forall j :: 0 <= j < |ops| ==> ops[j].operationType == rows[j].operationType
    ensures CountKind(ops[..i], Created) == CountCreates(rows[..i])
  {
    if i > 0 {
      assert ops[..i][..i - 1] == ops[..i - 1] && rows[..i][..i - 1] == rows[..i - 1];
      CreatesCounted(ops, rows, i - 1);
    }
  }

  /** Whether a create is paired with a log of its own key, so that its event is not dropped. */
  ghost predicate CreateKept(ops: seq<Op>, i: nat, logs: seq<Log>)
    requires i < |ops|
  {
    PairedLog(ops, i, logs).Some? && SameKey(PairedLog(ops, i, logs).value, ops[i])
  }

  /**
   When the counts let `fillCreateEntityKeys` name a transaction's creates, none
   of them loses its event to the key check if and only if the first
   EntityCreated logs, as many as there are creates, all have a second topic.
   */
  lemma FilledKeysAreKept(rows: seq<OperationRow>, ops: seq<Op>, logs: seq<Log>)
    requires forall i :: 0 <= i < |rows| && rows[i].operationType == CREATE ==> rows[i].entityKey.None?
    requires CountCreates(rows) > 0 && CountCreates(rows) == |SecondTopics(KindLogs(logs, Created))|
    requires ReadFrom(ops, Filled(rows, logs))
    ensures (forall i :: 0 <= i < |ops| && ops[i].operationType == CREATE ==> CreateKept(ops, i, logs)) <==>
            (forall j :: 0 <= j < CountCreates(rows) ==>
               j < |KindLogs(logs, Created)| && KindLogs(logs, Created)[j].topic1.Some?)
  {
    var created, n := KindLogs(logs, Created), CountCreates(rows);
    SecondTopicsAreNoMore(created);
    if forall j :: 0 <= j < n ==> j < |created| && created[j].topic1.Some? {
      SecondTopicsOfFull(created, n);
      forall i | 0 <= i < |ops| && ops[i].operationType == CREATE ensures CreateKept(ops, i, logs) {
        CreatesCounted(ops, rows, i);
        CountCreatesGrows(rows, i);
        var c := CountCreates(rows[..i]);
        assert Filled(rows, logs)[i].entityKey == Some(Lower(created[c].topic1.value));
        LowerTwice(created[c].topic1.value);
      }
    } else {
      var j :| 0 <= j < n && created[j].topic1.None?;
      var i := NthCreate(rows, j);
      CreatesCounted(ops, rows, i);
      assert !CreateKept(ops, i, logs);
    }
  }

  lemma {:induction false} NthCreate(rows: seq<OperationRow>, j: nat) returns (i: nat)
    requires j < CountCreates(rows)
    ensures i < |rows| && rows[i].operationType == CREATE && CountCreates(rows[..i]) == j
  {
    var n := |rows| - 1;
    if j < CountCreates(rows[..n]) {
      i := NthCreate(rows[..n], j);
      assert rows[..n][..i] == rows[..i];
    } else {
      i := n;
    }
  }

  /** A log without its second topic, ahead of one that has it, makes the create lose its event. */
  lemma AMissingTopicDropsAnEvent()
    ensures var key: ByteString := [1];
            var bare := Log(0, REGISTRY_ADDRESS, Some(Engine(Created)), None, None, Some(9), None);
            var full := Log(1, REGISTRY_ADDRESS, Some(Engine(Created)), Some(key), None, Some(9), None);
            var row := OperationRow(0, CREATE, None, None, [], None, None, None);
            var op := Op(1, 0, 0, CREATE, key, [], None, [], None, None, None, None);
            Filled([row], [bare, full]) == [row.(entityKey := Some(key))] &&
            EventFor([op], 0, [bare, full]) == Ok(None)
  {
    var key: ByteString := [1];
    var bare := Log(0, REGISTRY_ADDRESS, Some(Engine(Created)), None, None, Some(9), None);
    var full := Log(1, REGISTRY_ADDRESS, Some(Engine(Created)), Some(key), None, Some(9), None);
    var row := OperationRow(0, CREATE, None, None, [], None, None, None);
    assert Lower(REGISTRY_ADDRESS) == REGISTRY_ADDRESS && Lower(key) == key;
    assert [bare, full][..1] == [bare] && [bare][..0] == [];
    assert KindLogs([bare], Created) == [bare];
    assert KindLogs([bare, full], Created) == [bare, full];
    assert SecondTopics([bare]) == [];
    assert SecondTopics([bare, full]) == [key];
    assert [row][..0] == [];
    assert CountCreates([row]) == 1;
  }
}
