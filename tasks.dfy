/**
 * The task record shared by every screen of the task manager. Category and
 * status are closed enumerations; the optional history arrays are plain
 * sequences, an absent array being the empty one. Dates are kept as the
 * strings the application stores; a `DateParser` gives their instants.
 */
module Tasks {
  import opened Wrappers

  /** A task's category. `All` is also the "no restriction" value of the category filter. */
  datatype Category = All | Work | Personal

  datatype Status = Todo | InProgress | Completed

  /** The string a status is stored and shown as. */
  function StatusName(s: Status): (name: string)
    ensures name != ""
  {
    match s
    case Todo => "Todo"
    case InProgress => "In-Progress"
    case Completed => "Completed"
  }

  /** Distinct statuses are stored as distinct strings. */
  lemma StatusNameInjective(a: Status, b: Status)
    ensures StatusName(a) == StatusName(b) <==> a == b
  {
  }

  /** An uploaded file. Attachments written by the upload path carry no `uploadedAt`. */
  datatype Attachment = Attachment(name: string, url: string, uploadedAt: Option<string>)

  /** One recorded status transition; `from` and `to` are status strings. */
  datatype StatusChange = StatusChange(from: string, to: string, date: string)

  /** One recorded change of the field named `field`. */
  datatype Update = Update(date: string, field: string)

  datatype Task = Task(
    id: string,
    title: string,
    description: string,
    category: Category,
    dueDate: string,
    createdAt: string,
    completed: bool,
    attachments: seq<Attachment>,
    order: Option<int>,
    status: Status,
    statusChanges: seq<StatusChange>,
    updates: seq<Update>)

  /**
   * `new Date(s).getTime()`: the instant (milliseconds since the epoch) a date
   * string denotes, or None when the string is not a valid date.
   */
  type DateParser = string -> Option<int>
}
