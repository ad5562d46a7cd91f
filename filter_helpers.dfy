/**
 * `filterTasks`: the list view's filter. A task is kept when its due date
 * falls in the chosen window, its category matches the category filter, and
 * the search text occurs, ignoring letter case, in its title or description.
 * The clock is an input, and every due date is an instant given by a parser.
 */
module FilterHelpers {
  import opened Wrappers
  import opened Tasks
  import Seqs

  /** Milliseconds in a day. */
  const DayLen: int := 86_400_000

  /** The due-date filter (the source reuses the name `dueDate` for it). */
  datatype DueDateFilter = AllDates | Today | Tomorrow | OneWeek | OneMonth

  /**
   * What the filter reads from the clock: the current instant, and the
   * instant one calendar month later (what `setMonth(getMonth() + 1)` yields).
   */
  datatype Clock = Clock(now: int, oneMonthLater: int)

  /** The three filter inputs that the user chooses. */
  datatype Criteria = Criteria(category: Category, dueDate: DueDateFilter, query: string)

  /** The calendar day an instant falls on. */
  function Day(instant: int): int
  {
    instant / DayLen
  }

  predicate WithinDueDate(filter: DueDateFilter, due: int, clock: Clock)
  {
    match filter
    case AllDates => true
    case Today => Day(due) == Day(clock.now)
    case Tomorrow => Day(due) == Day(clock.now) + 1
    case OneWeek => due <= clock.now + 7 * DayLen
    case OneMonth => due <= clock.oneMonthLater
  }

  /** Only "Work" and "Personal" restrict; any other filter value lets every task through. */
  predicate WithinCategory(filter: Category, category: Category)
  {
    (filter == Work || filter == Personal) ==> category == filter
  }

  /** `toLowerCase` on one character (letters A to Z). */
  function LowerChar(c: char): char
  {
    if 'A' <= c <= 'Z' then (c as int + 32) as char else c
  }

  function Lower(s: string): (r: string)
    ensures |r| == |s|
    ensures forall i | 0 <= i < |s| :: r[i] == LowerChar(s[i])
  {
    Seqs.Map(s, LowerChar)
  }

  /** `haystack.includes(needle)`. */
  predicate Includes(haystack: string, needle: string)
  {
    needle <= haystack || (haystack != [] && Includes(haystack[1..], needle))
  }

  /** `needle` occurs in `haystack` starting at position `i`. */
  predicate OccursAt(haystack: string, needle: string, i: int)
  {
    0 <= i && i + |needle| <= |haystack| && haystack[i..i + |needle|] == needle
  }

  /** Dropping the first character of the haystack shifts every occurrence one place left. */
  lemma OccursShift(haystack: string, needle: string, i: nat)
    requires haystack != []
    ensures OccursAt(haystack[1..], needle, i) <==> OccursAt(haystack, needle, i + 1)
  {
    if i + |needle| <= |haystack[1..]| {
      assert haystack[1..][i..i + |needle|] == haystack[i + 1..i + 1 + |needle|];
    }
  }

  /** `Includes` holds exactly when the needle occurs at some position of the haystack. */
  lemma {:induction false} IncludesAt(haystack: string, needle: string)
    ensures Includes(haystack, needle) <==> exists i :: OccursAt(haystack, needle, i)
  {
    if needle <= haystack {
      assert OccursAt(haystack, needle, 0);
    } else if haystack == [] {
      assert forall i :: !OccursAt(haystack, needle, i);
    } else {
      IncludesAt(haystack[1..], needle);
      if Includes(haystack[1..], needle) {
        var i: nat :| OccursAt(haystack[1..], needle, i);
        OccursShift(haystack, needle, i);
      }
      if exists i :: OccursAt(haystack, needle, i) {
        var i :| OccursAt(haystack, needle, i);
        // i == 0 would make needle a prefix, the case handled above
        if i > 0 {
          OccursShift(haystack, needle, i - 1);
        }
      }
    }
  }

  predicate MatchesSearch(t: Task, query: string)
  {
    query == "" || Includes(Lower(t.title), Lower(query)) || Includes(Lower(t.description), Lower(query))
  }

  /** The invalid-date policy: the model covers only tasks whose due dates parse. */
  predicate DatesValid(tasks: seq<Task>, parse: DateParser)
  {
    forall t | t in tasks :: parse(t.dueDate).Some?
  }

  /** The filter callback of `filterTasks`. */
  predicate Passes(t: Task, crit: Criteria, clock: Clock, parse: DateParser)
    requires parse(t.dueDate).Some?
  {
    && WithinDueDate(crit.dueDate, parse(t.dueDate).value, clock)
    && WithinCategory(crit.category, t.category)
    && MatchesSearch(t, crit.query)
  }

  function Keeps(crit: Criteria, clock: Clock, parse: DateParser): Task -> bool
  {
    (t: Task) => parse(t.dueDate).Some? && Passes(t, crit, clock, parse)
  }

  /**
   * `filterTasks`: the tasks that pass, as an order-preserving subsequence;
   * each passing task keeps its multiplicity and no other task remains.
   */
  function FilterTasks(tasks: seq<Task>, crit: Criteria, clock: Clock, parse: DateParser): (r: seq<Task>)
    requires DatesValid(tasks, parse)
    ensures Seqs.IsSubseq(r, tasks)
    ensures forall t | t in r :: t in tasks && Passes(t, crit, clock, parse)
    ensures forall t | t in tasks && Passes(t, crit, clock, parse) :: multiset(r)[t] == multiset(tasks)[t]
  {
    Seqs.SelectIsSubseq(tasks, Keeps(crit, clock, parse));
    Seqs.SelectMultiset(tasks, Keeps(crit, clock, parse));
    Seqs.Select(tasks, Keeps(crit, clock, parse))
  }

  /** With no restriction chosen, the filter returns its input unchanged. */
  lemma FilterIdentity(tasks: seq<Task>, clock: Clock, parse: DateParser)
    requires DatesValid(tasks, parse)
    ensures FilterTasks(tasks, Criteria(All, AllDates, ""), clock, parse) == tasks
  {
    Seqs.SelectAll(tasks, Keeps(Criteria(All, AllDates, ""), clock, parse));
  }

  /** Filtering the result again with the same arguments returns it unchanged. */
  lemma FilterIdempotent(tasks: seq<Task>, crit: Criteria, clock: Clock, parse: DateParser)
    requires DatesValid(tasks, parse)
    ensures DatesValid(FilterTasks(tasks, crit, clock, parse), parse)
    ensures FilterTasks(FilterTasks(tasks, crit, clock, parse), crit, clock, parse) == FilterTasks(tasks, crit, clock, parse)
  {
    Seqs.SelectIdempotent(tasks, Keeps(crit, clock, parse));
  }

  /**
   * A "Work" or "Personal" filter gives exactly the tasks of that category
   * among those the "All" filter gives, in the same order.
   */
  lemma FilterByCategory(tasks: seq<Task>, crit: Criteria, clock: Clock, parse: DateParser)
    requires DatesValid(tasks, parse)
    requires crit.category == Work || crit.category == Personal
    ensures DatesValid(FilterTasks(tasks, crit.(category := All), clock, parse), parse)
    ensures FilterTasks(tasks, crit, clock, parse)
         == Seqs.Select(FilterTasks(tasks, crit.(category := All), clock, parse), (t: Task) => t.category == crit.category)
    ensures forall t | t in FilterTasks(tasks, crit, clock, parse) :: t.category == crit.category
  {
    var all := crit.(category := All);
    Seqs.SelectSelect(tasks, Keeps(all, clock, parse), (t: Task) => t.category == crit.category, Keeps(crit, clock, parse));
  }

  /** Queries that differ only in letter case select the same tasks. */
  lemma SearchIgnoresCase(tasks: seq<Task>, crit: Criteria, query: string, clock: Clock, parse: DateParser)
    requires DatesValid(tasks, parse)
    requires Lower(query) == Lower(crit.query)
    ensures FilterTasks(tasks, crit.(query := query), clock, parse) == FilterTasks(tasks, crit, clock, parse)
  {
    assert |query| == |crit.query|;
    Seqs.SelectCongruent(tasks, Keeps(crit.(query := query), clock, parse), Keeps(crit, clock, parse));
  }

  /**
   * An empty query matches every task; a non-empty one matches exactly when
   * its lower-case form occurs in the lower-case title or description.
   */
  lemma SearchMeaning(t: Task, query: string)
    ensures query == "" ==> MatchesSearch(t, query)
    ensures query != "" ==> (MatchesSearch(t, query) <==>
      (exists i :: OccursAt(Lower(t.title), Lower(query), i)) ||
      (exists i :: OccursAt(Lower(t.description), Lower(query), i)))
  {
    IncludesAt(Lower(t.title), Lower(query));
    IncludesAt(Lower(t.description), Lower(query));
  }

  /**
   * "Today" keeps a task exactly when it is due on the current calendar day,
   * "Tomorrow" exactly when it is due on the next one; no task passes both.
   */
  lemma TodayAndTomorrow(tasks: seq<Task>, crit: Criteria, clock: Clock, parse: DateParser)
    requires DatesValid(tasks, parse)
    ensures forall t | t in tasks && WithinCategory(crit.category, t.category) && MatchesSearch(t, crit.query) ::
      && (t in FilterTasks(tasks, crit.(dueDate := Today), clock, parse) <==> Day(parse(t.dueDate).value) == Day(clock.now))
      && (t in FilterTasks(tasks, crit.(dueDate := Tomorrow), clock, parse) <==> Day(parse(t.dueDate).value) == Day(clock.now) + 1)
    ensures forall t | t in FilterTasks(tasks, crit.(dueDate := Today), clock, parse) ::
      t !in FilterTasks(tasks, crit.(dueDate := Tomorrow), clock, parse)
  {
    var today, tomorrow := crit.(dueDate := Today), crit.(dueDate := Tomorrow);
    forall t | t in tasks && WithinCategory(crit.category, t.category) && MatchesSearch(t, crit.query)
      ensures t in FilterTasks(tasks, today, clock, parse) <==> Day(parse(t.dueDate).value) == Day(clock.now)
      ensures t in FilterTasks(tasks, tomorrow, clock, parse) <==> Day(parse(t.dueDate).value) == Day(clock.now) + 1
    {
      assert multiset(tasks)[t] > 0;
    }
  }

  /**
   * "One Week" and "One Month" bound the due date from above only: a task due
   * at or before now passes both (given that a month from now is not before now).
   */
  lemma OverdueWithinWeekAndMonth(tasks: seq<Task>, crit: Criteria, clock: Clock, parse: DateParser, t: Task)
    requires DatesValid(tasks, parse)
    requires clock.now <= clock.oneMonthLater
    requires t in tasks && parse(t.dueDate).Some? && parse(t.dueDate).value <= clock.now
    requires WithinCategory(crit.category, t.category) && MatchesSearch(t, crit.query)
    ensures t in FilterTasks(tasks, crit.(dueDate := OneWeek), clock, parse)
    ensures t in FilterTasks(tasks, crit.(dueDate := OneMonth), clock, parse)
  {
    assert multiset(tasks)[t] > 0;
  }
}
