/**
 The sizes that several parts of the benchmark share (bench/src/kernels.h and
 bench/src/bench.c).
 */
module Sizes {
  /** How many selector periods the dispatch ladder measures. */
  const DISP_LADDER_N: nat := 14

  const CHASE_WAYS: nat := 8

  /** The least buffer, in bytes, that a worker runs the memory phases on. */
  const MIN_MEM: nat := CHASE_WAYS * 65536
}
