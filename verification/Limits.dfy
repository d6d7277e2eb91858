/** Limits that several parts of the fuzzer share, and the smaller and larger of two numbers. */
module Limits {

  const MAX_FILE: nat := 1024 * 1024
  const TRIM_START_STEPS: nat := 16

  function Min(x: nat, y: nat): nat {
    if x <= y then x else y
  }

  function Max(x: nat, y: nat): nat {
    if x >= y then x else y
  }
}
