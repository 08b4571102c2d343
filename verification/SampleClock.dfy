/** Audio at 48 kHz against the clock of 100 ns ticks: what `samples` last, rounded down. */
module SampleClock {
  function Ticks(samples: nat): nat {
    samples * 10000000 / 48000
  }
}
