/** Stock result types and a counter, shared by every component. */
module Wrappers {
  datatype Option<+T> = None | Some(value: T)

  datatype Result<+T, +E> = Ok(value: T) | Err(error: E)

  function One(b: bool): nat {
    if b then 1 else 0
  }
}

/**
Entries with a time to live.  Every backend of the library stores such entries and
treats an entry as absent once the clock is strictly past its deadline; Go's
`now.After(deadline)` in the memory, Pebble and SurrealDB code has that strictness.
Instants and durations are integers, in nanoseconds.
*/
module Expiry {
  import opened Wrappers

  const SECOND: nat := 1_000_000_000

  datatype Deadline = Never | At(instant: int)

  predicate Passed(deadline: Deadline, now: int) {
    deadline.At? && now > deadline.instant
  }

  datatype Entry<+V> = Entry(payload: V, deadline: Deadline)

  type Table<+V> = map<string, Entry<V>>

  predicate Live<V>(table: Table<V>, now: int, key: string) {
    key in table && !Passed(table[key].deadline, now)
  }

  function Lookup<V>(table: Table<V>, now: int, key: string): Option<V> {
    if Live(table, now, key) then Some(table[key].payload) else None
  }

  /** The unexpired part of a table: all that a reader can observe at `now`. */
  function View<V>(table: Table<V>, now: int): Table<V> {
    map key | key in table && Live(table, now, key) :: table[key]
  }

  /** An expired entry stays expired, so whether it was dropped early can never be seen later. */
  lemma ViewSurvivesSweep<V>(table: Table<V>, swept: Table<V>, now: int, later: int)
    requires now <= later
    requires View(swept, now) == View(table, now)
    ensures View(swept, later) == View(table, later)
    ensures forall key :: Lookup(swept, later, key) == Lookup(table, later, key)
  {
    forall key
      ensures Live(swept, later, key) <==> Live(table, later, key)
      ensures Live(table, later, key) ==> swept[key] == table[key]
    {
      assert Live(table, later, key) ==> key in View(table, now);
      assert Live(swept, later, key) ==> key in View(swept, now);
    }
  }
}
