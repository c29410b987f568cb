/** The `/proc/system_call_counter` iterator: a cursor over the kernel's
    table of per-system-call invocation counters, one decimal line per counter. */
module CallCounter {
  import opened Wrappers
  import opened CTypes
  import opened SeqFile
  import Numerals
  import Printf

  /** How many counters the file shows. */
  const NumCounters: nat := 550

  /** A snapshot of `call_counters`; the array has at least NumCounters entries. */
  type CounterTable = t: seq<u64> | NumCounters <= |t| witness seq(NumCounters, _ => 0)

  /** Positions the cursor at `pos`; end of sequence once `pos` is past the last counter. */
  function Start(table: CounterTable, pos: nat): (r: Step<u64>)
    ensures r.pos == pos
    ensures r.item.None? <==> pos >= NumCounters
    ensures r.item.Some? ==> r.item.value == table[pos]
  {
    if pos >= NumCounters then Step(pos, None) else Step(pos, Some(table[pos]))
  }

  /** Advances the position by one, then looks the counter up exactly as Start does. */
  function Next(table: CounterTable, pos: nat): (r: Step<u64>)
    ensures r.pos == pos + 1
    ensures r.item.None? <==> pos + 1 >= NumCounters
    ensures r.item.Some? ==> r.item.value == table[pos + 1]
  {
    var p := pos + 1;
    if p >= NumCounters then Step(p, None) else Step(p, Some(table[p]))
  }

  /** Next at a position behaves as a fresh Start one position further on:
      this is what lets a later read resume from nothing but the saved position. */
  lemma NextIsStartOfSuccessor(table: CounterTable, pos: nat)
    ensures Next(table, pos) == Start(table, pos + 1)
  {
  }

  /** Stop holds no resources: the table and the position are left as they were. */
  function Stop(table: CounterTable, pos: nat): (r: (CounterTable, nat))
    ensures r.0 == table && r.1 == pos
  {
    (table, pos)
  }

  /** `%lu\n`: the counter's decimal digits and one newline. */
  function Show(value: u64): (r: string)
    ensures 2 <= |r| <= 21
    ensures r[|r| - 1] == '\n'
    ensures forall i :: 0 <= i < |r| - 1 ==> r[i] != '\n'
    ensures Numerals.ParseNat(r[..|r| - 1], 10) == Some(value)
    ensures |r| > 2 ==> r[0] != '0'
  {
    var d := Printf.UnsignedDecimal(value);
    assert (d + "\n")[..|d|] == d;
    d + "\n"
  }

  /** Distinct counter values print as distinct lines. */
  lemma ShowInjective(a: u64, b: u64)
    requires Show(a) == Show(b)
    ensures a == b
  {
    assert Show(a)[..|Show(a)| - 1] == Show(b)[..|Show(b)| - 1];
  }

  /** Counters 5, 0 and 42 print as the lines "5", "0" and "42". */
  lemma ShowExamples()
    ensures Show(5) == "5\n" && Show(0) == "0\n" && Show(42) == "42\n"
  {
    assert Numerals.Digits(42, 10) == "42";
  }
}
