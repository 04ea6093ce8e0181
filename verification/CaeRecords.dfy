/** Which records a CAE run lets through: each declared name once, and as many bytes as fit. */
module CaeRecords {
  import opened Options
  import opened CaeRecordStream
  import opened CaeProgress

  function NamesOf(items: seq<Item>): set<Name> {
    set i | 0 <= i < |items| && items[i].Packet? :: items[i].name
  }

  ghost predicate DistinctNames(items: seq<Item>) {
    forall i, j :: 0 <= i < j < |items| && items[i].Packet? && items[j].Packet? ==> items[i].name != items[j].name
  }

  function TotalBytes(items: seq<Item>): nat {
    if items == [] then 0
    else
      var last := items[|items| - 1];
      TotalBytes(items[..|items| - 1]) + if last.Packet? then last.byteLength else 0
  }

  /** Everything the program has recorded, handed out or not. */
  function Produced(r: Run): seq<Item> {
    r.delivered + r.queue
  }

  /** The program has not raised: all it has recorded went through. */
  predicate Unharmed(p: Program) {
    p == NotStarted || p == Program.Running || p == Awaiting || p == Finishing
  }

  ghost predicate Sane(items: seq<Item>, names: set<Name>, declared: set<Name>, bytes: nat, unharmed: bool) {
    && DistinctNames(items)
    && NamesOf(items) <= names <= declared
    && (unharmed ==> names == NamesOf(items))
    && bytes == TotalBytes(items) <= MAX_RECORDED_BYTES
  }

  ghost predicate RecordsSane(r: Run) {
    Sane(Produced(r), r.recordedNames, r.declared, r.recordedBytes, Unharmed(r.program))
  }

  lemma OneItemMore(items: seq<Item>, item: Item)
    ensures NamesOf(items + [item]) == NamesOf(items) + if item.Packet? then {item.name} else {}
    ensures TotalBytes(items + [item]) == TotalBytes(items) + if item.Packet? then item.byteLength else 0
    ensures DistinctNames(items) && (item.Packet? ==> item.name !in NamesOf(items)) ==> DistinctNames(items + [item])
  {
    var more := items + [item];
    assert more[..|items|] == items;
    assert forall i :: 0 <= i < |items| ==> more[i] == items[i];
    forall name | name in NamesOf(items) ensures name in NamesOf(more) {
      var i :| 0 <= i < |items| && items[i].Packet? && items[i].name == name;
      assert more[i] == items[i];
    }
    if item.Packet? {
      assert more[|items|] == item;
    }
    if DistinctNames(items) && (item.Packet? ==> item.name !in NamesOf(items)) {
      forall i, j | 0 <= i < j < |more| && more[i].Packet? && more[j].Packet? ensures more[i].name != more[j].name {
        assert more[i].name in NamesOf(items);
      }
    }
  }

  lemma SaneMore(items: seq<Item>, names: set<Name>, declared: set<Name>, bytes: nat, packet: Item)
    requires Sane(items, names, declared, bytes, true) && packet.Packet?
    requires packet.name in declared && packet.name !in names && packet.byteLength <= MAX_RECORDED_BYTES - bytes
    ensures Sane(items + [packet], names + {packet.name}, declared, bytes + packet.byteLength, true)
  {
    OneItemMore(items, packet);
    hide NamesOf, DistinctNames, TotalBytes;
  }

  lemma SaneEnded(items: seq<Item>, names: set<Name>, declared: set<Name>, bytes: nat, unharmed: bool, last: Item)
    requires Sane(items, names, declared, bytes, unharmed) && !last.Packet?
    ensures Sane(items + [last], names, declared, bytes, false)
  {
    OneItemMore(items, last);
    hide NamesOf, DistinctNames, TotalBytes;
  }

  // What a record does to the fields that matter here.
  lemma RecordEffect(r: Run, name: Name, byteLength: nat)
    requires Enabled(r, Record(name, byteLength))
    ensures var t, packet := Apply(r, Record(name, byteLength)), Packet(r.sequence + 1, name, byteLength);
      && t.declared == r.declared && Unharmed(r.program)
      && if name in r.declared && name !in r.recordedNames && byteLength <= MAX_RECORDED_BYTES - r.recordedBytes
         then
           && Produced(t) == Produced(r) + [packet]
           && t.recordedNames == r.recordedNames + {name} && t.recordedBytes == r.recordedBytes + byteLength
           && Unharmed(t.program)
         else
           && Produced(t) == Produced(r) && t.recordedBytes == r.recordedBytes && !Unharmed(t.program)
           && (t.recordedNames
               == r.recordedNames || (name in r.declared && t.recordedNames == r.recordedNames + {name}))
  {
    assert r.delivered + (r.queue + [Packet(r.sequence + 1, name, byteLength)])
      == Produced(r) + [Packet(r.sequence + 1, name, byteLength)];
  }

  lemma RecordSane(r: Run, name: Name, byteLength: nat)
    requires RecordsSane(r) && Enabled(r, Record(name, byteLength))
    ensures RecordsSane(Apply(r, Record(name, byteLength)))
  {
    RecordEffect(r, name, byteLength);
    hide Apply, Enabled, Produced, Unharmed, NamesOf, DistinctNames, TotalBytes, MAX_RECORDED_BYTES;
    if name in r.declared && name !in r.recordedNames && byteLength <= MAX_RECORDED_BYTES - r.recordedBytes {
      var packet := Packet(r.sequence + 1, name, byteLength);
      SaneMore(Produced(r), r.recordedNames, r.declared, r.recordedBytes, packet);
      hide Sane;
    }
  }

  lemma EndEffect(r: Run, step: Step) returns (last: Item)
    requires Enabled(r, step) && (step.ProgramCompletes? || step.ProgramFails?)
    ensures var t := Apply(r, step);
      && Produced(t) == Produced(r) + [last] && !last.Packet? && !Unharmed(t.program)
      && t.declared == r.declared && t.recordedNames == r.recordedNames && t.recordedBytes == r.recordedBytes
  {
    var t := Apply(r, step);
    last := t.queue[|r.queue|];
    assert t.queue == r.queue + [last] && t.delivered == r.delivered;
    assert r.delivered + (r.queue + [last]) == Produced(r) + [last];
  }

  lemma EndSane(r: Run, step: Step)
    requires RecordsSane(r) && Enabled(r, step) && (step.ProgramCompletes? || step.ProgramFails?)
    ensures RecordsSane(Apply(r, step))
  {
    hide Apply, Enabled, Produced, Unharmed, Sane;
    var last := EndEffect(r, step);
    SaneEnded(Produced(r), r.recordedNames, r.declared, r.recordedBytes, Unharmed(r.program), last);
  }

  // A step that produces nothing.
  lemma NothingProduced(r: Run, step: Step)
    requires Enabled(r, step) && !step.Record? && !step.ProgramCompletes? && !step.ProgramFails?
    requires r.program == NotStarted <==> !r.firstNext
    requires step.NextDelivers? ==> Apply(r, step).delivered == r.delivered + [r.queue[0]]
    ensures var t := Apply(r, step);
      && Produced(t) == Produced(r) && t.recordedNames == r.recordedNames && t.declared == r.declared
      && t.recordedBytes == r.recordedBytes
    ensures Unharmed(Apply(r, step).program) ==> Unharmed(r.program)
  {
    if step.NextDelivers? {
      assert r.delivered + r.queue == r.delivered + [r.queue[0]] + r.queue[1..];
    }
  }

  lemma StepSane(r: Run, step: Step)
    requires Inv(r) && RecordsSane(r) && Enabled(r, step)
    ensures RecordsSane(Apply(r, step))
  {
    if step.Record? {
      RecordSane(r, step.name, step.byteLength);
    } else if step.ProgramCompletes? || step.ProgramFails? {
      EndSane(r, step);
    } else {
      if step.NextDelivers? {
        DeliverInv(r);
      }
      hide Inv, Apply, Enabled, Produced, Unharmed;
      NothingProduced(r, step);
      hide NamesOf, DistinctNames, TotalBytes;
    }
  }

  lemma {:induction false} RunSane(r: Run, steps: seq<Step>, t: Run)
    requires Inv(r) && RecordsSane(r) && Happens(r, steps, t)
    ensures RecordsSane(t)
    decreases |steps|
  {
    hide Inv, RecordsSane, Apply, Enabled;
    if steps != [] {
      StepInv(r, steps[0]);
      StepSane(r, steps[0]);
      RunSane(Apply(r, steps[0]), steps[1..], t);
    }
  }

  lemma ReachableRecords(t: Run)
    requires Reachable(t)
    ensures RecordsSane(t)
  {
    var declared: set<Name>, steps: seq<Step> :| Happens(Start(declared), steps, t);
    assert Produced(Start(declared)) == [];
    RunSane(Start(declared), steps, t);
  }

  /** In every run the records produced have pairwise different names, all declared, and together no more bytes
      than allowed. */
  lemma RecordedOnce(t: Run, i: nat, j: nat)
    requires Reachable(t) && i < j < |t.delivered + t.queue|
    requires (t.delivered + t.queue)[i].Packet? && (t.delivered + t.queue)[j].Packet?
    ensures (t.delivered + t.queue)[i].name != (t.delivered + t.queue)[j].name
    ensures {(t.delivered + t.queue)[i].name, (t.delivered + t.queue)[j].name} <= t.declared
    ensures TotalBytes(t.delivered + t.queue) <= 67108864
  {
    ReachableRecords(t);
    assert (t.delivered + t.queue)[i].name in NamesOf(Produced(t));
    assert (t.delivered + t.queue)[j].name in NamesOf(Produced(t));
  }

  /** A running program's next record goes through exactly if its name is declared, no earlier record has it,
      and its bytes fit beside those of the earlier records; otherwise nothing is queued and the program raises. */
  lemma AcceptedExactlyWhen(t: Run, name: Name, byteLength: nat)
    requires Reachable(t) && t.program == Program.Running
    ensures var u, before := Apply(t, Record(name, byteLength)), t.delivered + t.queue;
      if && name in t.declared
         && (forall i :: 0 <= i < |before| && before[i].Packet? ==> before[i].name != name)
         && TotalBytes(before) + byteLength <= 67108864
      then
        && u.queue == t.queue + [Packet(t.sequence + 1, name, byteLength)] && u.program == Awaiting
        && u.sequence == t.sequence + 1
      else u.queue == t.queue && u.program == Raising(Other) && u.sequence == t.sequence
  {
    ReachableRecords(t);
    var before := Produced(t);
    assert name in NamesOf(before) <==> exists i :: 0 <= i < |before| && before[i].Packet? && before[i].name == name;
    hide DistinctNames, TotalBytes;
  }

  // --- What closes a run and what becomes of the pending record ---

  /** A reachable open run is closed by exactly these: a `next` with a wrong acknowledgement, one that is handed a
      terminal item or is cancelled while it waits, a watchdog, and an abort. A closed run stays closed. */
  lemma ClosesExactlyWhen(t: Run, step: Step)
    requires Reachable(t) && Enabled(t, step)
    ensures Apply(t, step).closed <==>
      || t.closed
      || (step.NextAcknowledges? && t.caller.ack != t.pending)
      || (step.NextDelivers? && !t.queue[0].Packet?)
      || (step.NextCancelled? && t.caller == Waiting)
      || step.WatchdogFires? || step.FirstNextExpires? || step.Abort?
  {
    ReachableSane(t);
    hide IsStream, Records, OneTo;
    if step.NextDelivers? {
      NoSecondPending(t);
    }
  }

  /** The record handed out last is the one to be acknowledged until the master has answered, its watchdog has
      fired, the run is aborted or the program has failed otherwise than by its time limit; after a run timeout
      its acknowledgement is still taken. */
  lemma PendingExactlyWhile(t: Run, step: Step)
    requires Reachable(t) && Enabled(t, step)
    ensures var u := Apply(t, step);
      u.pending == (match step
        case NextDelivers => if t.queue[0].Packet? then Some(t.queue[0].sequence) else t.pending
        case NextAcknowledges => None
        case WatchdogFires(n) => if t.pending == Some(n) then None else t.pending
        case ProgramFails => if t.program == Raising(RunTimeout) then t.pending else None
        case Abort => None
        case _ => t.pending)
  {
    if step.NextDelivers? {
      NoSecondPending(t);
    }
  }
}
