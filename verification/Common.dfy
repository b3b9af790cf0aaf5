/** Small value types shared by the release modules. */
module Common {
  datatype Option<+T> = None | Some(value: T)

  newtype byte = b: int | 0 <= b < 256
  type Bytes = seq<byte>

  /** How one effect on the outside world ends.  `Silent` returns normally without
      having changed anything; only restore actions can do that, because they run
      commands whose exit status is ignored. */
  datatype Outcome = Done | Silent | RaisedBefore | RaisedAfter {
    predicate Raises() { RaisedBefore? || RaisedAfter? }

    predicate TakesEffect() { Done? || RaisedAfter? }

    function Apply<T>(before: T, after: T): T {
      if TakesEffect() then after else before
    }
  }

  /** Outcomes of the forward effects: they either work or raise. */
  type Effect = o: Outcome | !o.Silent? witness Done
}
