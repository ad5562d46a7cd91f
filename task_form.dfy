/**
 * The task dialog: the activity timeline it shows for an existing task, and
 * the submit handler that validates the form and builds the task record.
 */
module TaskForm {
  import opened Wrappers
  import opened Tasks
  import Seqs
  import RenderForm

  // ---------------------------------------------------------------------
  // Activity timeline
  // ---------------------------------------------------------------------

  datatype EventKind = Creation | StatusEvent | FileEvent | UpdateEvent

  /** One line of the timeline. An attachment without `uploadedAt` gives an event without a date. */
  datatype Event = Event(action: string, date: Option<string>, kind: EventKind)

  function CreationEvent(t: Task): Event
  {
    Event("Created task", Some(t.createdAt), Creation)
  }

  function ChangeEvent(c: StatusChange): Event
  {
    Event("Changed status from " + c.from + " to " + c.to, Some(c.date), StatusEvent)
  }

  function UploadEvent(a: Attachment): Event
  {
    Event("Uploaded file: " + a.name, a.uploadedAt, FileEvent)
  }

  function FieldUpdateEvent(u: Update): Event
  {
    Event("Updated task: " + u.field, Some(u.date), UpdateEvent)
  }

  function StatusEvents(t: Task): seq<Event>
  {
    Seqs.Map(t.statusChanges, ChangeEvent)
  }

  function UploadEvents(t: Task): seq<Event>
  {
    Seqs.Map(t.attachments, UploadEvent)
  }

  function FieldUpdateEvents(t: Task): seq<Event>
  {
    Seqs.Map(t.updates, FieldUpdateEvent)
  }

  /** The events in the order they are listed before sorting. */
  function Events(t: Task): seq<Event>
  {
    [CreationEvent(t)] + StatusEvents(t) + UploadEvents(t) + FieldUpdateEvents(t)
  }

  function IsKind(k: EventKind): Event -> bool
  {
    (e: Event) => e.kind == k
  }

  predicate Dated(e: Event, parse: DateParser)
  {
    e.date.Some? && parse(e.date.value).Some?
  }

  function Instant(e: Event, parse: DateParser): int
    requires Dated(e, parse)
  {
    parse(e.date.value).value
  }

  predicate AllDated(es: seq<Event>, parse: DateParser)
  {
    forall e | e in es :: Dated(e, parse)
  }

  /** Each event is no more recent than the one before it. */
  predicate NewestFirst(es: seq<Event>, parse: DateParser)
    requires AllDated(es, parse)
  {
    forall i | 0 < i < |es| :: Instant(es[i], parse) <= Instant(es[i - 1], parse)
  }

  /** A list in which each event is no newer than its predecessor is sorted newest first throughout. */
  lemma {:induction false} NewestFirstThroughout(es: seq<Event>, parse: DateParser)
    requires AllDated(es, parse) && NewestFirst(es, parse)
    ensures forall i, j | 0 <= i < j < |es| :: Instant(es[j], parse) <= Instant(es[i], parse)
  {
    if |es| > 1 {
      var tail := es[1..];
      assert forall i | 0 < i < |tail| :: tail[i] == es[i + 1] && tail[i - 1] == es[i];
      NewestFirstThroughout(tail, parse);
      forall i, j | 0 <= i < j < |es| ensures Instant(es[j], parse) <= Instant(es[i], parse) {
        if i == 0 {
          if j > 1 {
            assert es[j] == tail[j - 1] && es[1] == tail[0];
          }
        } else {
          assert es[j] == tail[j - 1] && es[i] == tail[i - 1];
        }
      }
    }
  }

  /**
   * The invalid-date policy: every date the timeline sorts on parses. This
   * excludes attachments without `uploadedAt`, on which the sort compares NaN.
   */
  predicate HistoryDated(t: Task, parse: DateParser)
  {
    && parse(t.createdAt).Some?
    && (forall c | c in t.statusChanges :: parse(c.date).Some?)
    && (forall a | a in t.attachments :: a.uploadedAt.Some? && parse(a.uploadedAt.value).Some?)
    && (forall u | u in t.updates :: parse(u.date).Some?)
  }

  lemma HistoryDatedEvents(t: Task, parse: DateParser)
    requires HistoryDated(t, parse)
    ensures AllDated(Events(t), parse)
  {
    forall e | e in Events(t) ensures Dated(e, parse) {
      var sc, at, up := StatusEvents(t), UploadEvents(t), FieldUpdateEvents(t);
      if e in sc {
        var i :| 0 <= i < |sc| && sc[i] == e;
        assert t.statusChanges[i] in t.statusChanges;
      } else if e in at {
        var i :| 0 <= i < |at| && at[i] == e;
        assert t.attachments[i] in t.attachments;
      } else if e in up {
        var i :| 0 <= i < |up| && up[i] == e;
        assert t.updates[i] in t.updates;
      }
    }
  }

  /** An event no older than the head of a newest-first list can go in front of it. */
  lemma ConsNewestFirst(x: Event, s: seq<Event>, parse: DateParser)
    requires Dated(x, parse) && AllDated(s, parse) && NewestFirst(s, parse)
    requires s != [] ==> Instant(s[0], parse) <= Instant(x, parse)
    ensures AllDated([x] + s, parse) && NewestFirst([x] + s, parse)
  {
    var r := [x] + s;
    forall i | 1 <= i < |r| ensures Instant(r[i], parse) <= Instant(r[i - 1], parse) {
      assert r[i] == s[i - 1];
      if i > 1 {
        assert r[i - 1] == s[i - 2];
      }
    }
  }

  /** Inserts `e` in front of the first entry that is no newer than it. */
  function Insert(e: Event, sorted: seq<Event>, parse: DateParser): (r: seq<Event>)
    requires Dated(e, parse) && AllDated(sorted, parse)
    ensures multiset(r) == multiset(sorted) + multiset{e}
    ensures |r| == |sorted| + 1
    ensures r[0] == e || (sorted != [] && r[0] == sorted[0])
    ensures AllDated(r, parse)
  {
    if sorted == [] then [e]
    else if Instant(sorted[0], parse) <= Instant(e, parse) then [e] + sorted
    else
      assert sorted == [sorted[0]] + sorted[1..];
      [sorted[0]] + Insert(e, sorted[1..], parse)
  }

  /** Inserting into a newest-first list keeps it newest first. */
  lemma {:induction false} InsertNewestFirst(e: Event, sorted: seq<Event>, parse: DateParser)
    requires Dated(e, parse) && AllDated(sorted, parse) && NewestFirst(sorted, parse)
    ensures NewestFirst(Insert(e, sorted, parse), parse)
  {
    if sorted == [] {
    } else if Instant(sorted[0], parse) <= Instant(e, parse) {
      ConsNewestFirst(e, sorted, parse);
    } else {
      assert sorted == [sorted[0]] + sorted[1..];
      assert AllDated(sorted[1..], parse) && NewestFirst(sorted[1..], parse);
      InsertNewestFirst(e, sorted[1..], parse);
      var rest := Insert(e, sorted[1..], parse);
      assert Instant(rest[0], parse) <= Instant(sorted[0], parse);
      ConsNewestFirst(sorted[0], rest, parse);
    }
  }

  /** The `.sort` by descending date, as an insertion sort. */
  function SortNewestFirst(es: seq<Event>, parse: DateParser): (r: seq<Event>)
    requires AllDated(es, parse)
    ensures multiset(r) == multiset(es)
    ensures AllDated(r, parse) && NewestFirst(r, parse)
  {
    if es == [] then []
    else
      assert es == [es[0]] + es[1..];
      var rest := SortNewestFirst(es[1..], parse);
      InsertNewestFirst(es[0], rest, parse);
      Insert(es[0], rest, parse)
  }

  /**
   * `renderActivityTimeline`: nothing without an initial task, otherwise its
   * events sorted newest first, as a permutation of the listed events.
   */
  function Timeline(initialTask: Option<Task>, parse: DateParser): (r: Option<seq<Event>>)
    requires initialTask.Some? ==> HistoryDated(initialTask.value, parse)
    ensures r.None? <==> initialTask.None?
    ensures r.Some? ==> multiset(r.value) == multiset(Events(initialTask.value))
    ensures r.Some? ==> AllDated(r.value, parse)
    ensures r.Some? ==> forall i, j | 0 <= i < j < |r.value| :: Instant(r.value[j], parse) <= Instant(r.value[i], parse)
  {
    match initialTask
    case None => None
    case Some(t) =>
      HistoryDatedEvents(t, parse);
      var sorted := SortNewestFirst(Events(t), parse);
      NewestFirstThroughout(sorted, parse);
      Some(sorted)
  }

  /** Splitting the listed events by kind recovers each source array's events. */
  lemma SelectEvents(t: Task, k: EventKind)
    ensures Seqs.Select(Events(t), IsKind(k)) == Seqs.Select([CreationEvent(t)], IsKind(k))
      + Seqs.Select(StatusEvents(t), IsKind(k)) + Seqs.Select(UploadEvents(t), IsKind(k))
      + Seqs.Select(FieldUpdateEvents(t), IsKind(k))
  {
    var c, sc, at, up := [CreationEvent(t)], StatusEvents(t), UploadEvents(t), FieldUpdateEvents(t);
    Seqs.SelectConcat(c + sc + at, up, IsKind(k));
    Seqs.SelectConcat(c + sc, at, IsKind(k));
    Seqs.SelectConcat(c, sc, IsKind(k));
  }

  /** Each history array's events carry that array's kind. */
  lemma EventKinds(t: Task)
    ensures forall e | e in StatusEvents(t) :: e.kind == StatusEvent
    ensures forall e | e in UploadEvents(t) :: e.kind == FileEvent
    ensures forall e | e in FieldUpdateEvents(t) :: e.kind == UpdateEvent
  {
    forall e | e in StatusEvents(t) ensures e.kind == StatusEvent {
      var i :| 0 <= i < |StatusEvents(t)| && StatusEvents(t)[i] == e;
    }
    forall e | e in UploadEvents(t) ensures e.kind == FileEvent {
      var i :| 0 <= i < |UploadEvents(t)| && UploadEvents(t)[i] == e;
    }
    forall e | e in FieldUpdateEvents(t) ensures e.kind == UpdateEvent {
      var i :| 0 <= i < |FieldUpdateEvents(t)| && FieldUpdateEvents(t)[i] == e;
    }
  }

  /** Exactly the creation event is of kind Creation. */
  lemma CreationEvents(t: Task)
    ensures Seqs.Select(Events(t), IsKind(Creation)) == [CreationEvent(t)]
  {
    SelectEvents(t, Creation);
    EventKinds(t);
    Seqs.SelectNone(StatusEvents(t), IsKind(Creation));
    Seqs.SelectNone(UploadEvents(t), IsKind(Creation));
    Seqs.SelectNone(FieldUpdateEvents(t), IsKind(Creation));
  }

  lemma StatusChangeEvents(t: Task)
    ensures Seqs.Select(Events(t), IsKind(StatusEvent)) == StatusEvents(t)
  {
    SelectEvents(t, StatusEvent);
    EventKinds(t);
    Seqs.SelectNone([CreationEvent(t)], IsKind(StatusEvent));
    Seqs.SelectAll(StatusEvents(t), IsKind(StatusEvent));
    Seqs.SelectNone(UploadEvents(t), IsKind(StatusEvent));
    Seqs.SelectNone(FieldUpdateEvents(t), IsKind(StatusEvent));
  }

  lemma FileEvents(t: Task)
    ensures Seqs.Select(Events(t), IsKind(FileEvent)) == UploadEvents(t)
  {
    SelectEvents(t, FileEvent);
    EventKinds(t);
    Seqs.SelectNone([CreationEvent(t)], IsKind(FileEvent));
    Seqs.SelectNone(StatusEvents(t), IsKind(FileEvent));
    Seqs.SelectAll(UploadEvents(t), IsKind(FileEvent));
    Seqs.SelectNone(FieldUpdateEvents(t), IsKind(FileEvent));
  }

  lemma UpdateEvents(t: Task)
    ensures Seqs.Select(Events(t), IsKind(UpdateEvent)) == FieldUpdateEvents(t)
  {
    SelectEvents(t, UpdateEvent);
    EventKinds(t);
    Seqs.SelectNone([CreationEvent(t)], IsKind(UpdateEvent));
    Seqs.SelectNone(StatusEvents(t), IsKind(UpdateEvent));
    Seqs.SelectNone(UploadEvents(t), IsKind(UpdateEvent));
    Seqs.SelectAll(FieldUpdateEvents(t), IsKind(UpdateEvent));
  }

  /** A sequence with the multiset of a one-element sequence is that sequence. */
  lemma SingletonPermutation(s: seq<Event>, x: Event)
    requires multiset(s) == multiset{x}
    ensures s == [x]
  {
    assert |s| == |multiset(s)| == 1;
    assert s[0] in multiset(s);
  }

  /**
   * The timeline holds one event per history entry plus exactly one creation
   * event, dated `createdAt`; each kind occurs as often as its source array has entries.
   */
  lemma TimelineCounts(t: Task, parse: DateParser)
    requires HistoryDated(t, parse)
    ensures var r := Timeline(Some(t), parse).value;
      && |r| == 1 + |t.statusChanges| + |t.attachments| + |t.updates|
      && Seqs.Select(r, IsKind(Creation)) == [CreationEvent(t)]
      && |Seqs.Select(r, IsKind(StatusEvent))| == |t.statusChanges|
      && |Seqs.Select(r, IsKind(FileEvent))| == |t.attachments|
      && |Seqs.Select(r, IsKind(UpdateEvent))| == |t.updates|
  {
    var r := Timeline(Some(t), parse).value;
    var es := Events(t);
    assert |multiset(r)| == |r| && |multiset(es)| == |es|;
    CreationEvents(t);
    StatusChangeEvents(t);
    FileEvents(t);
    UpdateEvents(t);
    Seqs.SelectPermutation(r, es, IsKind(Creation));
    Seqs.SelectPermutation(r, es, IsKind(StatusEvent));
    Seqs.SelectPermutation(r, es, IsKind(FileEvent));
    Seqs.SelectPermutation(r, es, IsKind(UpdateEvent));
    SingletonPermutation(Seqs.Select(r, IsKind(Creation)), CreationEvent(t));
  }

  lemma InTimeline(t: Task, parse: DateParser, e: Event)
    requires HistoryDated(t, parse)
    ensures e in Timeline(Some(t), parse).value <==> e in Events(t)
  {
    var r := Timeline(Some(t), parse).value;
    assert e in r <==> e in multiset(r);
    assert e in Events(t) <==> e in multiset(Events(t));
  }

  /** Each history entry appears in the timeline with its message text and its own date. */
  lemma TimelineMessages(t: Task, parse: DateParser)
    requires HistoryDated(t, parse)
    ensures var r := Timeline(Some(t), parse).value;
      && Event("Created task", Some(t.createdAt), Creation) in r
      && (forall c | c in t.statusChanges ::
            Event("Changed status from " + c.from + " to " + c.to, Some(c.date), StatusEvent) in r)
      && (forall a | a in t.attachments :: Event("Uploaded file: " + a.name, a.uploadedAt, FileEvent) in r)
      && (forall u | u in t.updates :: Event("Updated task: " + u.field, Some(u.date), UpdateEvent) in r)
  {
    var sc, at, up := StatusEvents(t), UploadEvents(t), FieldUpdateEvents(t);
    InTimeline(t, parse, CreationEvent(t));
    forall c | c in t.statusChanges ensures ChangeEvent(c) in Timeline(Some(t), parse).value {
      var i :| 0 <= i < |t.statusChanges| && t.statusChanges[i] == c;
      assert sc[i] in sc;
      InTimeline(t, parse, sc[i]);
    }
    forall a | a in t.attachments ensures UploadEvent(a) in Timeline(Some(t), parse).value {
      var i :| 0 <= i < |t.attachments| && t.attachments[i] == a;
      assert at[i] in at;
      InTimeline(t, parse, at[i]);
    }
    forall u | u in t.updates ensures FieldUpdateEvent(u) in Timeline(Some(t), parse).value {
      var i :| 0 <= i < |t.updates| && t.updates[i] == u;
      assert up[i] in up;
      InTimeline(t, parse, up[i]);
    }
  }

  /** A task created at T0 whose status changed once at T1 > T0 lists the change first. */
  lemma OneStatusChangeTimeline(t: Task, parse: DateParser)
    requires |t.statusChanges| == 1 && t.attachments == [] && t.updates == []
    requires HistoryDated(t, parse)
    requires parse(t.createdAt).value < parse(t.statusChanges[0].date).value
    ensures Timeline(Some(t), parse) == Some([ChangeEvent(t.statusChanges[0]), CreationEvent(t)])
  {
    var c := t.statusChanges[0];
    var created, changed := CreationEvent(t), ChangeEvent(c);
    assert StatusEvents(t) == [changed];
    assert UploadEvents(t) == [] && FieldUpdateEvents(t) == [];
    assert Events(t) == [created, changed];
    HistoryDatedEvents(t, parse);
    var es := Events(t);
    assert es[0] == created && es[1..] == [changed];
    assert SortNewestFirst(es[1..], parse) == Insert(changed, [], parse) == [changed];
    assert Instant(changed, parse) > Instant(created, parse);
    assert Insert(created, [changed], parse) == [changed] + Insert(created, [], parse) == [changed, created];
    assert SortNewestFirst(es, parse) == Insert(created, [changed], parse);
  }

  // ---------------------------------------------------------------------
  // Submit handler
  // ---------------------------------------------------------------------

  /**
   * The form's fields. The category is None while it is still the empty string
   * the form starts from; otherwise it holds the category chosen with the
   * Work/Personal buttons or copied from the task being edited.
   */
  datatype FormState = FormState(
    title: string,
    description: string,
    category: Option<Category>,
    dueDate: string,
    status: Status)

  /** The record handed to `onSubmit`: a task without history and with an optional id. */
  datatype Draft = Draft(
    id: Option<string>,
    title: string,
    description: string,
    category: Category,
    dueDate: string,
    status: Status,
    completed: bool,
    createdAt: string,
    attachments: seq<Attachment>)

  /** The characters `String.prototype.trim` removes. */
  predicate IsSpace(c: char)
  {
    || c == '\t' || c == '\n' || c == '\U{000B}' || c == '\U{000C}' || c == '\r' || c == ' '
    || c == '\U{00A0}' || c == '\U{1680}' || ('\U{2000}' <= c <= '\U{200A}')
    || c == '\U{2028}' || c == '\U{2029}' || c == '\U{202F}' || c == '\U{205F}'
    || c == '\U{3000}' || c == '\U{FEFF}'
  }

  predicate Blank(s: string)
  {
    forall i | 0 <= i < |s| :: IsSpace(s[i])
  }

  function TrimStart(s: string): string
  {
    if s != [] && IsSpace(s[0]) then TrimStart(s[1..]) else s
  }

  function TrimEnd(s: string): string
  {
    if s != [] && IsSpace(s[|s| - 1]) then TrimEnd(s[..|s| - 1]) else s
  }

  /** `s.trim()`. */
  function Trim(s: string): string
  {
    TrimEnd(TrimStart(s))
  }

  lemma {:induction false} TrimStartEmpty(s: string)
    ensures TrimStart(s) == "" <==> Blank(s)
    ensures TrimStart(s) != "" ==> !IsSpace(TrimStart(s)[0])
  {
    if s != [] && IsSpace(s[0]) {
      TrimStartEmpty(s[1..]);
      assert forall i | 1 <= i < |s| :: s[i] == s[1..][i - 1];
    }
  }

  lemma {:induction false} TrimEndEmpty(s: string)
    ensures TrimEnd(s) == "" <==> Blank(s)
  {
    if s != [] && IsSpace(s[|s| - 1]) {
      TrimEndEmpty(s[..|s| - 1]);
      assert forall i | 0 <= i < |s| - 1 :: s[i] == s[..|s| - 1][i];
    }
  }

  /** A string trims to the empty string exactly when all its characters are white space. */
  lemma TrimEmptyIffBlank(s: string)
    ensures Trim(s) == "" <==> Blank(s)
  {
    TrimStartEmpty(s);
    TrimEndEmpty(TrimStart(s));
  }

  /**
   * `handleSubmit`: no record (and no `onSubmit` call) when the title or due
   * date is blank or no category is chosen; otherwise the form's fields, with
   * `completed` derived from the status, no attachments, the initial task's
   * `createdAt` unless that is empty (then `now`), and the initial task's id
   * when it has a non-empty one.
   */
  function HandleSubmit(form: FormState, initialTask: Option<Task>, now: string): (r: Option<Draft>)
    ensures r.None? <==> Blank(form.title) || Blank(form.dueDate) || form.category.None?
    ensures r.Some? ==> && r.value.title == form.title && r.value.description == form.description
                        && Some(r.value.category) == form.category && r.value.dueDate == form.dueDate
                        && r.value.status == form.status
    ensures r.Some? ==> (r.value.completed <==> r.value.status == Completed)
    ensures r.Some? ==> r.value.attachments == []
    ensures r.Some? ==> r.value.createdAt ==
                        if initialTask.Some? && initialTask.value.createdAt != "" then initialTask.value.createdAt else now
    ensures r.Some? ==> (r.value.id.Some? <==> initialTask.Some? && initialTask.value.id != "")
    ensures r.Some? && r.value.id.Some? ==> r.value.id.value == initialTask.value.id
  {
    TrimEmptyIffBlank(form.title);
    TrimEmptyIffBlank(form.dueDate);
    if Trim(form.title) == "" || Trim(form.dueDate) == "" || form.category.None? then None
    else
      var draft := Draft(None, form.title, form.description, form.category.value, form.dueDate,
        form.status, form.status == Completed,
        if initialTask.Some? && initialTask.value.createdAt != "" then initialTask.value.createdAt else now,
        []);
      Some(if initialTask.Some? && initialTask.value.id != "" then draft.(id := Some(initialTask.value.id)) else draft)
  }

  /** Whenever the submit button is disabled, the submit handler rejects the form too. */
  lemma DisabledImpliesRejected(form: FormState, initialTask: Option<Task>, now: string)
    requires RenderForm.SubmitDisabled(form.title, form.dueDate, form.category, form.status)
    ensures HandleSubmit(form, initialTask, now).None?
  {
  }

  /** The converse fails: a title of one space leaves the button enabled but is rejected. */
  lemma BlankTitleEnabledButRejected(initialTask: Option<Task>, now: string)
    ensures var form := FormState(" ", "", Some(Work), "2025-01-15", Todo);
      !RenderForm.SubmitDisabled(form.title, form.dueDate, form.category, form.status)
      && HandleSubmit(form, initialTask, now).None?
  {
    var form := FormState(" ", "", Some(Work), "2025-01-15", Todo);
    assert Blank(form.title);
  }
}
