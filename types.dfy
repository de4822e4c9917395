/** The records of the finance tracker (src/types/transaction.ts) and the small
    wrappers the rest of the model uses for absent values and thrown errors. */
module Types {

  /** An optional value: `None` plays the part of `undefined`. */
  datatype Option<+T> = None | Some(value: T) {
    function GetOr(default: T): T {
      match this
      case Some(v) => v
      case None => default
    }
  }

  /** The errors the store throws. */
  datatype Error =
    | AmountNotPositive   // 'Amount must be positive'
    | NotFound            // 'Not found'
    | InvalidDate         // the RangeError a date that does not parse leads to

  /** The outcome of an operation that may throw. */
  datatype Result<+T> = Ok(value: T) | Err(error: Error)

  datatype Pattern = Daily | Weekly | Monthly

  /** A recurrence rule; `endDate` absent or empty means "no end". */
  datatype Recurring = Recurring(pattern: Pattern, startDate: string, endDate: Option<string>)

  /** A stored transaction. `txType` and `category` are strings because nothing on
      the write path checks them against the declared unions. */
  datatype Transaction = Transaction(
    id: string,
    amount: real,
    txType: string,
    category: string,
    date: string,
    notes: Option<string>,
    recurring: Option<Recurring>)

  datatype BudgetRule = BudgetRule(id: string, category: string, monthlyLimit: real)

  /** The query filters of the store, which are also the state of the filter store. */
  datatype TxFilters = TxFilters(
    txType: Option<string>,
    category: Option<string>,
    from: Option<string>,
    to: Option<string>,
    q: Option<string>)

  const Income: string := "income"
  const Expense: string := "expense"

  /** The names the `Category` union declares. */
  predicate IsDeclaredCategory(c: string) {
    c in ["Food", "Rent", "Utilities", "Transport", "Shopping", "Entertainment",
          "Health", "Salary", "Investment", "Other"]
  }

  predicate IsDeclaredType(t: string) {
    t == Income || t == Expense
  }

  /** JavaScript truthiness of an optional string: present and not empty. */
  predicate Truthy(o: Option<string>) {
    o.Some? && o.value != ""
  }

  /** `date.slice(0, 7)`: the `YYYY-MM` part of a date string. */
  function MonthOf(date: string): (ym: string)
    ensures |ym| == if |date| < 7 then |date| else 7
    ensures date == ym + date[|ym|..]
  {
    if |date| < 7 then date else date[..7]
  }
}
