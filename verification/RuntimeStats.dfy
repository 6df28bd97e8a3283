/** The counters both runtimes keep (AllocatorStats in runtime/include/runtime.h).
    They are `size_t` in C. `current` is an integer here because the C code lowers it;
    that it never goes below zero is proved with each runtime. */
module RuntimeStats {
  datatype Stats = Stats(allocations: nat, collections: nat, current: int, peak: int)
}

