/**
 The timer hook: a 64-bit tick count kept from samples of a 24-bit hardware counter,
 and the counts and milliseconds reported from it.
 */
module TickTimer {
  import opened Words

  const WRAP: nat := 0x100_0000          // the hardware counter has 24 bits
  const TICK_8254: nat := 0x1234F0
  const TICK_ACPI: nat := 0x369E99

  // A counter value the hardware can show.
  type Sample = t: int | 0 <= t < WRAP

  // The stored count after a sample: carry into the upper bits when the counter
  // went backwards, else replace the low bits.
  function NextRun(run: nat, t: Sample): nat {
    if run % WRAP > t then (run / WRAP + 1) * WRAP + t
    else run / WRAP * WRAP + t
  }

  // The low 32 bits are replaced on their own; the upper half is not touched.
  function WithLowPart(run: nat, t: Sample): nat {
    var low := run % 0x1_0000_0000;
    run / 0x1_0000_0000 * 0x1_0000_0000 + (low / WRAP * WRAP + t)
  }

  lemma LowPartSuffices(run: nat, t: Sample)
    ensures WithLowPart(run, t) == run / WRAP * WRAP + t
  {
    var hi, low := run / 0x1_0000_0000, run % 0x1_0000_0000;
    assert run == hi * 0x1_0000_0000 + low;
    assert hi * 0x1_0000_0000 == hi * 0x100 * WRAP;
    assert run / WRAP == hi * 0x100 + low / WRAP;
  }

  class TckRef {
    var freq: nat
    var run: nat

    // HookTimeTckRef(0): start above the ticks already reported by the system timer.
    constructor (freq: nat, mmTick: nat)
      ensures this.freq == freq && run % WRAP == 0 && run > mmTick * TICK_ACPI / 1000
    {
      this.freq := freq;
      run := (mmTick * TICK_ACPI / 1000 / WRAP + 1) * WRAP;
    }

    // elapsedTickProc: the count kept here, or on a machine with a fast performance counter
    // that counter's own value; nothing for a result address that is null, unaligned or not
    // writable, though the sample is taken.
    method ElapsedTick(t: Sample, performance: nat, writable: bool) returns (count: Option<nat>)
      modifies this`run
      ensures run == if freq < TICK_8254 then NextRun(old(run), t) else old(run)
      ensures count.Some? <==> writable
      ensures writable ==> count.value == if freq < TICK_8254 then Count(run, freq) else performance
    {
      if freq < TICK_8254 {
        if run % WRAP > t {
          run := (run / WRAP + 1) * WRAP + t;
        } else {
          LowPartSuffices(run, t);
          run := WithLowPart(run, t);
        }
        if writable {
          return Some(run * freq / TICK_ACPI);
        }
      } else if writable {
        return Some(performance);
      }
      count := None;
    }

    // TimeHookProc: milliseconds, as a 32-bit count.
    method TimeHook(t: Sample, performance: nat) returns (ms: Word)
      requires 0 < freq
      modifies this`run
      ensures run == if freq < TICK_8254 then NextRun(old(run), t) else old(run)
      ensures ms == (if freq < TICK_8254 then Millis(run, freq) else performance * 1000 / freq) % 0x1_0000_0000
    {
      var li := ElapsedTick(t, performance, true);
      ms := li.value * 1000 / freq % 0x1_0000_0000;
    }
  }

  function Count(run: nat, freq: nat): nat {
    run * freq / TICK_ACPI
  }

  function Millis(run: nat, freq: nat): nat
    requires 0 < freq
  {
    Count(run, freq) * 1000 / freq
  }

  // ---------- exactness ----------

  // The count follows true time modulo the counter's wrap: from a count in phase with
  // the counter at true tick T, a sample at T' advances it by (T' - T) mod 2^24.
  lemma AdvanceModWrap(run: nat, T: nat, T': nat)
    requires T <= T' && run % WRAP == T % WRAP
    ensures NextRun(run, T' % WRAP) == run + (T' - T) % WRAP
    ensures NextRun(run, T' % WRAP) % WRAP == T' % WRAP
    ensures NextRun(run, T' % WRAP) == run + (T' - T) <==> T' - T < WRAP
  {
    assert run == run / WRAP * WRAP + run % WRAP;
    assert T == T / WRAP * WRAP + T % WRAP && T' == T' / WRAP * WRAP + T' % WRAP;
    var d := T' / WRAP - T / WRAP;
    if run % WRAP > T' % WRAP {
      assert T' - T == (d - 1) * WRAP + (WRAP + T' % WRAP - T % WRAP);
    } else {
      assert T' - T == d * WRAP + (T' % WRAP - T % WRAP);
    }
  }

  function RunAll(run: nat, samples: seq<Sample>): nat
    decreases samples
  {
    if samples == [] then run else RunAll(NextRun(run, samples[0]), samples[1..])
  }

  function Readings(ticks: seq<nat>): seq<Sample> {
    seq(|ticks|, i requires 0 <= i < |ticks| => ticks[i] % WRAP)
  }

  // Consecutive samples are less than one wrap apart.
  predicate Dense(T: nat, ticks: seq<nat>)
    decreases ticks
  {
    ticks == [] || (T <= ticks[0] < T + WRAP && Dense(ticks[0], ticks[1..]))
  }

  // However often the counter wrapped, the stored count advances by exactly the true
  // elapsed ticks.
  lemma {:induction false} ExtensionExact(run: nat, T: nat, ticks: seq<nat>)
    requires Dense(T, ticks) && run % WRAP == T % WRAP
    ensures ticks != [] ==> RunAll(run, Readings(ticks)) == run + (ticks[|ticks| - 1] - T)
    decreases ticks
  {
    if ticks == [] {
    } else {
      AdvanceModWrap(run, T, ticks[0]);
      assert Readings(ticks)[1..] == Readings(ticks[1..]);
      ExtensionExact(NextRun(run, ticks[0] % WRAP), ticks[0], ticks[1..]);
      if |ticks| > 1 {
        assert ticks[1..][|ticks| - 2] == ticks[|ticks| - 1];
      }
    }
  }

  // A fresh reference is put in phase by its first sample.
  lemma FirstSampleInPhase(run: nat, T: nat)
    requires run % WRAP == 0
    ensures NextRun(run, T % WRAP) % WRAP == T % WRAP && NextRun(run, T % WRAP) == run + T % WRAP
  {
    assert run == run / WRAP * WRAP;
  }

  // ---------- what is reported ----------

  lemma DivMono(a: nat, b: nat, d: nat)
    requires a <= b && 0 < d
    ensures a / d <= b / d
  {
    if a / d > b / d {
      DivBounds(a, d);
      DivBounds(b, d);
      MulMono(b / d + 1, a / d, d);
    }
  }

  lemma DivBounds(a: nat, d: nat)
    requires 0 < d
    ensures a / d * d <= a < (a / d + 1) * d
  {
  }

  lemma MulMono(a: nat, b: nat, d: nat)
    requires a <= b
    ensures a * d <= b * d
  {
  }

  // Reported time never runs backwards, whatever the samples are.
  lemma MillisMonotone(run: nat, t: Sample, freq: nat)
    requires 0 < freq
    ensures run <= NextRun(run, t)
    ensures Millis(run, freq) <= Millis(NextRun(run, t), freq)
  {
    var run' := NextRun(run, t);
    assert run == run / WRAP * WRAP + run % WRAP;
    MulMono(run, run', freq);
    DivMono(run * freq, run' * freq, TICK_ACPI);
    DivMono(Count(run, freq) * 1000, Count(run', freq) * 1000, freq);
  }

  // Milliseconds lag the exact quotient by less than 1000/freq + 1; with the
  // denominators cleared:
  lemma MillisBounds(run: nat, freq: nat)
    requires 0 < freq
    ensures Millis(run, freq) * TICK_ACPI <= run * 1000
    ensures run * 1000 * freq < (Millis(run, freq) + 1) * TICK_ACPI * freq + 1000 * TICK_ACPI
  {
    var c, ms := Count(run, freq), Millis(run, freq);
    DivBounds(run * freq, TICK_ACPI);
    DivBounds(c * 1000, freq);
    assert ms * freq <= c * 1000 && c * TICK_ACPI <= run * freq;
    LagUpper(run, freq, c, ms);
    assert run * freq < (c + 1) * TICK_ACPI && c * 1000 < (ms + 1) * freq;
    LagLower(run, freq, c, ms);
  }

  lemma LagUpper(run: nat, freq: nat, c: nat, ms: nat)
    requires 0 < freq && ms * freq <= c * 1000 && c * TICK_ACPI <= run * freq
    ensures ms * TICK_ACPI <= run * 1000
  {
    assert ms * freq * TICK_ACPI <= c * 1000 * TICK_ACPI <= run * freq * 1000;
    assert ms * freq * TICK_ACPI == (ms * TICK_ACPI) * freq && run * freq * 1000 == (run * 1000) * freq;
    if ms * TICK_ACPI > run * 1000 {
      MulMono(run * 1000 + 1, ms * TICK_ACPI, freq);
    }
  }

  lemma LagLower(run: nat, freq: nat, c: nat, ms: nat)
    requires run * freq < (c + 1) * TICK_ACPI && c * 1000 < (ms + 1) * freq
    ensures run * 1000 * freq < (ms + 1) * TICK_ACPI * freq + 1000 * TICK_ACPI
  {
    assert run * 1000 * freq == run * freq * 1000;
    assert (ms + 1) * TICK_ACPI * freq == (ms + 1) * freq * TICK_ACPI;
  }
}
