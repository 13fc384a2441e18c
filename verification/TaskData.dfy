/** The task tables and their invariant (backend/app/models/task.py, label.py, activity.py,
    attachment.py, comment.py). */
module TaskData {
  import opened Ids
  import opened Sorting

  type TaskId = nat
  type LabelId = nat
  type CommentId = nat
  type AttachmentId = nat
  type StorageKey = nat

  /** The columns an update may name. A value is the text `str` gives it, or None for null;
      within one column different values have different texts. */
  datatype Field = Title | Description | Status | Priority | Assignee | DueDate

  type Value = Option<string>

  datatype Values = Values(title: Value, description: Value, status: Value, priority: Value, assignee: Value,
                           dueDate: Value)

  function Get(v: Values, f: Field): Value {
    match f
    case Title => v.title
    case Description => v.description
    case Status => v.status
    case Priority => v.priority
    case Assignee => v.assignee
    case DueDate => v.dueDate
  }

  /** setattr(task, field, value) */
  function Put(v: Values, f: Field, x: Value): Values {
    match f
    case Title => v.(title := x)
    case Description => v.(description := x)
    case Status => v.(status := x)
    case Priority => v.(priority := x)
    case Assignee => v.(assignee := x)
    case DueDate => v.(dueDate := x)
  }

  /** str(value) */
  function Str(x: Value): string {
    if x.Some? then x.value else "None"
  }

  predicate NotNull(v: Values) {
    v.title.Some? && v.status.Some? && v.priority.Some?
  }

  /** `origin` records the values at creation, and `born` orders tasks by creation. */
  datatype Task = Task(project: ProjectId, parent: Option<TaskId>, values: Values, labels: seq<LabelId>,
                       position: int, origin: Values, born: nat)

  datatype Label = Label(project: ProjectId, name: string)

  datatype Attachment = Attachment(task: TaskId, key: StorageKey)

  datatype Change = Change(old_: string, new_: string)

  datatype LabelChange = LabelChange(old_: seq<string>, new_: seq<string>)

  datatype What = Created | Updated(changes: map<Field, Change>, labels: Option<LabelChange>) | Deleted

  datatype Entry = Entry(project: ProjectId, task: Option<TaskId>, what: What)

  datatype Db = Db(
    tasks: map<TaskId, Task>, labels: map<LabelId, Label>, members: set<(ProjectId, string)>,
    comments: map<CommentId, TaskId>, attachments: map<AttachmentId, Attachment>,
    log: seq<Entry>, clock: nat)

  function Names(labels: map<LabelId, Label>, ids: seq<LabelId>): seq<string>
    requires forall l :: l in ids ==> l in labels
  {
    if ids == [] then [] else Names(labels, ids[..|ids| - 1]) + [labels[ids[|ids| - 1]].name]
  }

  // ---------------------------------------------------------------- the invariant of committed states

  /** Parents exist, lie in the same project, and are older: the links form a finite forest. */
  ghost predicate IsForest(tasks: map<TaskId, Task>) {
    forall t :: t in tasks && tasks[t].parent.Some? ==>
      var p := tasks[t].parent.value;
      p in tasks && tasks[p].project == tasks[t].project && tasks[p].born < tasks[t].born
  }

  ghost predicate LabelsOk(labels: map<LabelId, Label>, project: ProjectId, ids: seq<LabelId>) {
    NoDuplicates(ids) && forall l :: l in ids ==> l in labels && labels[l].project == project
  }

  ghost predicate TaskOk(db: Db, x: Task) {
    && NotNull(x.values) && NotNull(x.origin)
    && (x.values.assignee.Some? ==> (x.project, x.values.assignee.value) in db.members)
    && LabelsOk(db.labels, x.project, x.labels)
    && x.born < db.clock
  }

  ghost predicate UniqueNames(labels: map<LabelId, Label>) {
    forall l, m :: l in labels && m in labels && labels[l] == labels[m] ==> l == m
  }

  ghost predicate NothingDangles(db: Db) {
    && (forall c :: c in db.comments ==> db.comments[c] in db.tasks)
    && (forall a :: a in db.attachments ==> db.attachments[a].task in db.tasks)
    && (forall a, b :: a in db.attachments && b in db.attachments && db.attachments[a].key == db.attachments[b].key
          ==> a == b)
    && (forall i :: 0 <= i < |db.log| && db.log[i].task.Some? ==> db.log[i].task.value in db.tasks)
  }

  // ---------------------------------------------------------------- replaying the log

  predicate About(e: Entry, t: TaskId) {
    e.task == Some(t) && e.what.Updated?
  }

  /** The last recorded `new` of a field, or what it was at creation. */
  function LastNew(log: seq<Entry>, t: TaskId, f: Field, origin: string): string {
    if log == [] then origin
    else
      var e := log[|log| - 1];
      if About(e, t) && f in e.what.changes then e.what.changes[f].new_
      else LastNew(log[..|log| - 1], t, f, origin)
  }

  /** Each recorded `old` of a field is the preceding `new`, or what it was at creation. */
  ghost predicate Chained(log: seq<Entry>, t: TaskId, f: Field, origin: string) {
    log != [] ==>
      var e, before := log[|log| - 1], log[..|log| - 1];
      && Chained(before, t, f, origin)
      && (About(e, t) && f in e.what.changes ==> e.what.changes[f].old_ == LastNew(before, t, f, origin))
  }

  function LastLabels(log: seq<Entry>, t: TaskId): seq<string> {
    if log == [] then []
    else
      var e := log[|log| - 1];
      if About(e, t) && e.what.labels.Some? then e.what.labels.value.new_ else LastLabels(log[..|log| - 1], t)
  }

  ghost predicate LabelsChained(log: seq<Entry>, t: TaskId) {
    log != [] ==>
      var e, before := log[|log| - 1], log[..|log| - 1];
      && LabelsChained(before, t)
      && (About(e, t) && e.what.labels.Some? ==>
            && e.what.labels.value.old_ == LastLabels(before, t)
            && e.what.labels.value.old_ != e.what.labels.value.new_)
  }

  /** Replaying a task's log from its creation gives the present values of its fields. */
  ghost predicate FieldsReplay(log: seq<Entry>, t: TaskId, x: Task) {
    && (forall f :: Chained(log, t, f, Str(Get(x.origin, f))))
    && (forall f :: LastNew(log, t, f, Str(Get(x.origin, f))) == Str(Get(x.values, f)))
  }

  /** And the present names of its labels. */
  ghost predicate LabelsReplay(log: seq<Entry>, t: TaskId, x: Task, labels: map<LabelId, Label>) {
    && (forall l :: l in x.labels ==> l in labels)
    && LabelsChained(log, t)
    && LastLabels(log, t) == Sort(Names(labels, x.labels))
  }

  ghost predicate Consistent(db: Db) {
    && IsForest(db.tasks) && UniqueNames(db.labels) && NothingDangles(db)
    && forall t {:trigger TaskOk(db, db.tasks[t])} :: t in db.tasks ==>
         TaskOk(db, db.tasks[t]) && FieldsReplay(db.log, t, db.tasks[t])
  }

  /** Every attachment row's object is in the bucket. */
  ghost predicate RowsHaveObjects(rows: map<AttachmentId, Attachment>, bucket: set<StorageKey>) {
    forall a :: a in rows ==> rows[a].key in bucket
  }
}
