/** What a consolidation boundary reads. */
module Window {
  import opened Events
  import opened EventLog
  import opened Dedup

  predicate IsCapture(e: Event) {
    e.payload.ObservationCaptured?
  }

  /** Some memory in the table, valid or not, was distilled from `o`. */
  predicate Consumed(table: Memories, o: Id) {
    exists m :: m in table && o in table[m].memory.sources
  }

  function CapturesIn(log: Log): (captures: Log)
    ensures forall e :: e in captures <==> e in log && IsCapture(e)
  {
    if log == [] then []
    else
      var rest := CapturesIn(log[..|log| - 1]);
      assert log == log[..|log| - 1] + [log[|log| - 1]];
      if IsCapture(log[|log| - 1]) then rest + [log[|log| - 1]] else rest
  }

  predicate Distilled(e: Event, table: Memories) {
    IsCapture(e) && Consumed(table, e.payload.observation.id)
  }

  function Unconsumed(captures: Log, table: Memories): (left: Log)
    ensures forall e :: e in left <==> e in captures && !Distilled(e, table)
  {
    if captures == [] then []
    else
      var last := captures[|captures| - 1];
      var rest := Unconsumed(captures[..|captures| - 1], table);
      assert captures == captures[..|captures| - 1] + [last];
      if Distilled(last, table) then rest else rest + [last]
  }

  /** What is handed to the extractor: captured after the watermark and not distilled before. */
  function HandedOver(log: Log, watermark: Option<Id>, table: Memories): (window: Log)
    ensures forall e :: e in window ==> e in log && IsCapture(e) && !Distilled(e, table)
  {
    var start := StartAfter(log, watermark);
    assert forall e :: e in log[start..] ==> e in log;
    Unconsumed(CapturesIn(ReadSince(log, watermark)), table)
  }
}
