/**
 * The records the application keeps in its state: people with integer ids and
 * expenses that reference them by id.
 */
module Records {

  datatype Option<T> = None | Some(value: T)

  /** `{id, name}` */
  datatype Person = Person(id: int, name: string)

  /**
   * Expense ids are `Date.now()` (plus `Math.random()` for imported rows),
   * so they are numbers that need not be whole; the model takes them as
   * parameters.
   */
  type ExpenseId = real

  /** `{id, amount, description, payerId, participants, date, time, timestamp}` */
  datatype Expense = Expense(
    id: ExpenseId,
    amount: real,
    description: string,
    payerId: int,
    participants: seq<int>,
    date: string,
    time: string,
    timestamp: string)
}
