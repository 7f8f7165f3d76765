/** A key for definitions that should stay closed. `Open(k)` is always true, so stating a fact
    under it says nothing less than the fact itself; but the prover only looks at the fact once
    a proof mentions the key, as in `assert Open(0);`. */
module Guards {
  ghost predicate Open(k: nat) {
    true
  }
}
