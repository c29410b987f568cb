/** How a reader drives either iterator: a walk of start, show and next calls
    until end of sequence, and chunked reads that each run start, then show and
    next until a per-read budget of records is spent, then stop, keeping only
    the integer position between reads. */
module Session {
  import opened Wrappers
  import opened CTypes
  import opened SeqFile
  import opened ForkRecord
  import CallCounter
  import ForkProcfile

  /** The two record sources: the counter table, or the fork backend's single slot. */
  datatype Source =
    | Counters(table: CallCounter.CounterTable)
    | ForkSlot(backend: ForkProcfile.Backend)

  datatype Record = Counter(value: u64) | Fork(info: ForkInfo)

  /** A record as shown, with the position at which show was called. */
  datatype Entry = Entry(pos: nat, rec: Record)

  /** What one read produced, and the position the reader keeps for the next read. */
  datatype Chunk = Chunk(shown: seq<Entry>, resume: nat)

  /** A read shows at least one record when one is available: the kernel
      enlarges its buffer until the first record fits. */
  type Budget = b: nat | 1 <= b witness 1

  function CounterStep(s: Step<u64>): (r: Step<Record>)
    ensures r.pos == s.pos
    ensures r.item.Some? <==> s.item.Some?
    ensures r.item.Some? ==> r.item.value == Counter(s.item.value)
  {
    match s.item
    case None => Step(s.pos, None)
    case Some(v) => Step(s.pos, Some(Counter(v)))
  }

  function ForkStep(s: Step<ForkInfo>): (r: Step<Record>)
    ensures r.pos == s.pos
    ensures r.item.Some? <==> s.item.Some?
    ensures r.item.Some? ==> r.item.value == Fork(s.item.value)
  {
    match s.item
    case None => Step(s.pos, None)
    case Some(f) => Step(s.pos, Some(Fork(f)))
  }

  function Start(src: Source, pos: nat): Step<Record> {
    match src
    case Counters(t) => CounterStep(CallCounter.Start(t, pos))
    case ForkSlot(b) => ForkStep(ForkProcfile.Start(b, pos))
  }

  function Next(src: Source, pos: nat): (r: Step<Record>)
    ensures src.Counters? ==> r.pos == pos + 1 && (r.item.Some? ==> pos + 1 < CallCounter.NumCounters)
    ensures src.ForkSlot? ==> r.item.None?
  {
    match src
    case Counters(t) => CounterStep(CallCounter.Next(t, pos))
    case ForkSlot(b) => ForkStep(ForkProcfile.Next(b, pos))
  }

  function Stop(src: Source, pos: nat): (r: (Source, nat))
    ensures r.0 == src && r.1 == pos
  {
    match src
    case Counters(t) =>
      var (t', p) := CallCounter.Stop(t, pos);
      (Counters(t'), p)
    case ForkSlot(b) =>
      var (b', p) := ForkProcfile.Stop(b, pos);
      (ForkSlot(b'), p)
  }

  function Show(rec: Record): string {
    match rec
    case Counter(v) => CallCounter.Show(v)
    case Fork(f) => ForkProcfile.Show(f)
  }

  /** The bytes a sequence of shown records puts in the reader's buffer. */
  function Text(entries: seq<Entry>): string {
    if entries == [] then "" else Show(entries[0].rec) + Text(entries[1..])
  }

  function Measure(src: Source, pos: nat): nat {
    if src.Counters? && pos < CallCounter.NumCounters then CallCounter.NumCounters - pos else 0
  }

  /** Everything an uninterrupted session shows: start at `pos`, then next until end of sequence. */
  function Walk(src: Source, pos: nat): seq<Entry> {
    var s := Start(src, pos);
    match s.item
    case None => []
    case Some(r) => [Entry(s.pos, r)] + Continue(src, s.pos)
  }

  /** What next, repeated from the record at `pos`, shows after it. */
  function Continue(src: Source, pos: nat): seq<Entry>
    decreases Measure(src, pos)
  {
    var n := Next(src, pos);
    match n.item
    case None => []
    case Some(r) => [Entry(n.pos, r)] + Continue(src, n.pos)
  }

  /** One read: start at the saved position, show records until the budget is
      spent or next reports the end, then stop; the position after the last
      next is what the reader keeps. */
  function Read(src: Source, pos: nat, budget: Budget): Chunk {
    var s := Start(src, pos);
    match s.item
    case None => Chunk([], Stop(src, s.pos).1)
    case Some(r) => Fill(src, s.pos, r, budget - 1)
  }

  /** Shows `rec` (the record at `pos`), calls next, and goes on while `more` records may still be shown. */
  function Fill(src: Source, pos: nat, rec: Record, more: nat): Chunk
    decreases more
  {
    var n := Next(src, pos);
    if n.item.None? || more == 0 then
      Chunk([Entry(pos, rec)], Stop(src, n.pos).1)
    else
      var c := Fill(src, n.pos, n.item.value, more - 1);
      Chunk([Entry(pos, rec)] + c.shown, c.resume)
  }

  /** The counters from `k` to the end of the table, each with its own position: the reference walk. */
  function Remaining(table: CallCounter.CounterTable, k: nat): (r: seq<Entry>)
    ensures |r| == (if k <= CallCounter.NumCounters then CallCounter.NumCounters - k else 0)
    ensures forall i :: 0 <= i < |r| ==> r[i] == Entry(k + i, Counter(table[k + i]))
  {
    var n := if k <= CallCounter.NumCounters then CallCounter.NumCounters - k else 0;
    seq(n, i requires 0 <= i < n => Entry(k + i, Counter(table[k + i])))
  }

  lemma {:induction false} ContinueCounters(table: CallCounter.CounterTable, pos: nat)
    requires pos < CallCounter.NumCounters
    ensures Continue(Counters(table), pos) == Remaining(table, pos + 1)
    decreases CallCounter.NumCounters - pos
  {
    var src := Counters(table);
    var n := Next(src, pos);
    if pos + 1 < CallCounter.NumCounters {
      ContinueCounters(table, pos + 1);
      assert Continue(src, pos) == [Entry(pos + 1, Counter(table[pos + 1]))] + Remaining(table, pos + 2);
    }
  }

  /** A session started at any position shows exactly the counters from that position to the end, in order. */
  lemma WalkCounters(table: CallCounter.CounterTable, pos: nat)
    ensures Walk(Counters(table), pos) == Remaining(table, pos)
  {
    if pos < CallCounter.NumCounters {
      ContinueCounters(table, pos);
      assert Walk(Counters(table), pos) == [Entry(pos, Counter(table[pos]))] + Remaining(table, pos + 1);
    }
  }

  /** A full walk visits positions 0..549 once each, in ascending order, showing each counter's value, and then ends. */
  lemma FullWalk(table: CallCounter.CounterTable)
    ensures |Walk(Counters(table), 0)| == CallCounter.NumCounters
    ensures forall i :: 0 <= i < CallCounter.NumCounters ==>
              Walk(Counters(table), 0)[i] == Entry(i, Counter(table[i]))
  {
    WalkCounters(table, 0);
  }

  /** Stopping after k records and starting again at the position reached
      shows the rest of the uninterrupted walk: nothing skipped, nothing repeated. */
  lemma StopAndResume(table: CallCounter.CounterTable, pos: nat, k: nat)
    requires k <= |Walk(Counters(table), pos)|
    ensures Walk(Counters(table), pos)[..k] + Walk(Counters(table), pos + k) == Walk(Counters(table), pos)
  {
    WalkCounters(table, pos);
    WalkCounters(table, pos + k);
    var w := Walk(Counters(table), pos);
    assert w[..k] + Walk(Counters(table), pos + k) == w;
  }

  /** After the record at `pos`, next continues exactly as a fresh walk from `pos + 1` would. */
  lemma WalkStep(table: CallCounter.CounterTable, pos: nat)
    ensures pos < CallCounter.NumCounters ==>
              Walk(Counters(table), pos) == [Entry(pos, Counter(table[pos]))] + Walk(Counters(table), pos + 1)
    ensures pos >= CallCounter.NumCounters ==> Walk(Counters(table), pos) == []
  {
    CallCounter.NextIsStartOfSuccessor(table, pos);
  }

  lemma {:induction false} FillCounters(table: CallCounter.CounterTable, pos: nat, more: nat)
    requires pos < CallCounter.NumCounters
    ensures var c := Fill(Counters(table), pos, Counter(table[pos]), more);
            && |c.shown| == Min(more + 1, CallCounter.NumCounters - pos)
            && c.resume == pos + |c.shown|
            && c.shown + Walk(Counters(table), c.resume) == Walk(Counters(table), pos)
    decreases more
  {
    var src := Counters(table);
    var e := Entry(pos, Counter(table[pos]));
    WalkStep(table, pos);
    if pos + 1 < CallCounter.NumCounters && more > 0 {
      FillCounters(table, pos + 1, more - 1);
      var c' := Fill(src, pos + 1, Counter(table[pos + 1]), more - 1);
      assert Fill(src, pos, Counter(table[pos]), more) == Chunk([e] + c'.shown, c'.resume);
      ConcatAssoc([e], c'.shown, Walk(src, c'.resume));
    }
  }

  function Min(a: nat, b: nat): nat {
    if a < b then a else b
  }

  /** One read shows the next min(budget, remaining) counters and keeps the
      position just past them; starting the next read there continues the walk
      exactly where this one left off. */
  lemma ReadCounters(table: CallCounter.CounterTable, pos: nat, budget: Budget)
    ensures var c := Read(Counters(table), pos, budget);
            && |c.shown| == Min(budget, |Walk(Counters(table), pos)|)
            && c.resume == pos + |c.shown|
            && c.shown + Walk(Counters(table), c.resume) == Walk(Counters(table), pos)
  {
    WalkCounters(table, pos);
    if pos < CallCounter.NumCounters {
      FillCounters(table, pos, budget - 1);
    }
  }

  lemma {:induction false} TextAppend(a: seq<Entry>, b: seq<Entry>)
    ensures Text(a + b) == Text(a) + Text(b)
    decreases |a|
  {
    if a == [] {
      assert a + b == b;
    } else {
      assert (a + b)[1..] == a[1..] + b;
      TextAppend(a[1..], b);
    }
  }

  lemma ConcatAssoc<T>(a: seq<T>, b: seq<T>, c: seq<T>)
    ensures a + b + c == a + (b + c)
  {
  }

  lemma WalkLength(table: CallCounter.CounterTable, pos: nat)
    ensures |Walk(Counters(table), pos)| == (if pos <= CallCounter.NumCounters then CallCounter.NumCounters - pos else 0)
  {
    WalkCounters(table, pos);
  }

  /** A reader that calls read until it returns nothing receives every counter
      line exactly once, in order, whatever the per-read budget. */
  method ReadAll(table: CallCounter.CounterTable, budget: Budget) returns (entries: seq<Entry>, text: string)
    ensures entries == Walk(Counters(table), 0)
    ensures text == Text(entries)
    ensures |entries| == CallCounter.NumCounters
    ensures forall i :: 0 <= i < |entries| ==> entries[i] == Entry(i, Counter(table[i]))
  {
    var src := Counters(table);
    var pos := 0;
    entries, text := [], "";
    var c := Read(src, pos, budget);
    while c.shown != []
      invariant c == Read(src, pos, budget)
      invariant pos <= CallCounter.NumCounters
      invariant entries + Walk(src, pos) == Walk(src, 0)
      invariant text == Text(entries)
      decreases CallCounter.NumCounters - pos
    {
      ReadCounters(table, pos, budget);
      WalkLength(table, pos);
      TextAppend(entries, c.shown);
      ConcatAssoc(entries, c.shown, Walk(src, c.resume));
      entries, text := entries + c.shown, text + Text(c.shown);
      pos := c.resume;
      c := Read(src, pos, budget);
    }
    ReadCounters(table, pos, budget);
    WalkLength(table, pos);
    assert entries + [] == entries;
    FullWalk(table);
  }

  /** The fork stream is one record long when the backend has a record, and empty when it reports -1. */
  lemma WalkFork(backend: ForkProcfile.Backend, pos: nat)
    ensures Walk(ForkSlot(backend), pos) == (if backend.Some? then [Entry(pos, Fork(backend.value))] else [])
  {
  }

  /** Every read of the fork file, whatever position the reader kept, shows the
      same single record and keeps the position where it was: a second read
      shows the record again. */
  lemma ReadForkRepeats(backend: ForkProcfile.Backend, pos: nat, budget: Budget)
    ensures Read(ForkSlot(backend), pos, budget) == Chunk(Walk(ForkSlot(backend), pos), pos)
  {
  }
}
