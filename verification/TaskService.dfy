/** Creating, updating and deleting tasks (backend/app/services/task_service.py,
    backend/app/crud/task.py). Each request works on a session of its own and either commits it or
    leaves the committed state as it was. */
module TaskService {
  import opened Ids
  import opened Sorting
  import opened TaskData

  datatype Error = AssigneeNotMember | ForeignParent | ForeignLabel | NullColumn | RepeatedLabel

  datatype Outcome = Done | Refused(error: Error)

  type Updates = map<Field, Value>

  // ---------------------------------------------------------------- what each request does

  predicate IsMember(db: Db, project: ProjectId, assignee: Value) {
    assignee.None? || (project, assignee.value) in db.members
  }

  function ColumnOf(db: Db, project: ProjectId, status: Value): set<TaskId> {
    set t | t in db.tasks && db.tasks[t].project == project && db.tasks[t].values.status == status
  }

  /** One more than the greatest position in the task's status column, or 1 in an empty one. */
  ghost predicate IsNextPosition(db: Db, project: ProjectId, status: Value, position: int) {
    var column := ColumnOf(db, project, status);
    if column == {} then position == 1
    else
      && (forall t :: t in column ==> db.tasks[t].position < position)
      && exists t :: t in column && db.tasks[t].position + 1 == position
  }

  /** A task of this project that stands in this column. */
  predicate Beside(db: Db, x: TaskId, project: ProjectId, status: Value) {
    x in db.tasks && db.tasks[x].project == project && Get(db.tasks[x].values, Status) == status
  }

  function CreateRefusal(db: Db, project: ProjectId, values: Values, parent: Option<TaskId>): Outcome {
    if !IsMember(db, project, values.assignee) then Refused(AssigneeNotMember)
    else if parent.Some? && (parent.value !in db.tasks || db.tasks[parent.value].project != project)
      then Refused(ForeignParent)
    else Done
  }

  function WithTask(db: Db, t: TaskId, project: ProjectId, values: Values, parent: Option<TaskId>, position: int): Db {
    db.(tasks := db.tasks[t := Task(project, parent, values, [], position, values, db.clock)],
       log := db.log + [Entry(project, Some(t), Created)],
       clock := db.clock + 1)
  }

  function Overwrite(v: Values, u: Updates): Values {
    Values(if Title in u then u[Title] else v.title,
           if Description in u then u[Description] else v.description,
           if Status in u then u[Status] else v.status,
           if Priority in u then u[Priority] else v.priority,
           if Assignee in u then u[Assignee] else v.assignee,
           if DueDate in u then u[DueDate] else v.dueDate)
  }

  function Changes(v: Values, u: Updates): map<Field, Change> {
    map f | f in u && Get(v, f) != u[f] :: Change(Str(Get(v, f)), Str(u[f]))
  }

  predicate Resolvable(labels: map<LabelId, Label>, project: ProjectId, ids: seq<LabelId>) {
    forall l :: l in ids ==> l in labels && labels[l].project == project
  }

  function LabelDiff(labels: map<LabelId, Label>, before: seq<LabelId>, after: seq<LabelId>): Option<LabelChange>
    requires (forall l :: l in before ==> l in labels) && forall l :: l in after ==> l in labels
  {
    var a, b := Sort(Names(labels, before)), Sort(Names(labels, after));
    if a == b then None else Some(LabelChange(a, b))
  }

  /** A list of labels with each one kept once: what the link table can hold. */
  function Distinct(ids: seq<LabelId>): (r: seq<LabelId>)
    ensures NoDuplicates(r) && forall l :: l in r <==> l in ids
    ensures NoDuplicates(ids) ==> r == ids
  {
    if ids == [] then []
    else
      var shorter, last := ids[..|ids| - 1], ids[|ids| - 1];
      assert ids == shorter + [last];
      if last in shorter then
        assert exists i :: 0 <= i < |shorter| && ids[i] == last;
        Distinct(shorter)
      else
        Distinct(shorter) + [last]
  }

  ghost predicate Repeats(labelIds: Option<seq<LabelId>>) {
    labelIds.Some? && !NoDuplicates(labelIds.value)
  }

  /** `once` says what becomes of a label named twice in one update: its link is written once, or
      twice and then the link table's key rejects the flush. That is up to the ORM. */
  ghost function UpdateRefusal(db: Db, t: TaskId, u: Updates, labelIds: Option<seq<LabelId>>, once: bool): Outcome
    requires t in db.tasks
  {
    var x := db.tasks[t];
    if Assignee in u && !IsMember(db, x.project, u[Assignee]) then Refused(AssigneeNotMember)
    else if labelIds.Some? && !Resolvable(db.labels, x.project, labelIds.value) then Refused(ForeignLabel)
    else if !NotNull(Overwrite(x.values, u)) then Refused(NullColumn)
    else if Repeats(labelIds) && !once then Refused(RepeatedLabel)
    else Done
  }

  /** The labels looked up in an update, and those the task already had, are known. */
  ghost predicate LabelsKnown(db: Db, t: TaskId, labelIds: Option<seq<LabelId>>) {
    && t in db.tasks && (forall l :: l in db.tasks[t].labels ==> l in db.labels)
    && (labelIds.Some? ==> Resolvable(db.labels, db.tasks[t].project, labelIds.value))
  }

  function Wanted(x: Task, labelIds: Option<seq<LabelId>>): seq<LabelId> {
    if labelIds.Some? then labelIds.value else x.labels
  }

  /** The state after an update: names are compared as listed, links are kept once. */
  function Update(db: Db, t: TaskId, u: Updates, labelIds: Option<seq<LabelId>>): Db
    requires LabelsKnown(db, t, labelIds)
  {
    var x := db.tasks[t];
    db.(tasks := db.tasks[t := x.(values := Overwrite(x.values, u),
                                  labels := if labelIds.Some? then Distinct(labelIds.value) else x.labels)],
       log := Noted(db.log, x.project, t, Changes(x.values, u), LabelDiff(db.labels, x.labels, Wanted(x, labelIds))))
  }

  /** An update that changes nothing leaves no entry. */
  function Noted(log: seq<Entry>, project: ProjectId, t: TaskId, changes: map<Field, Change>,
                 diff: Option<LabelChange>): seq<Entry> {
    if changes == map[] && diff.None? then log else log + [Entry(project, Some(t), Updated(changes, diff))]
  }

  /** Following parents from x leads to root. */
  predicate Descends(tasks: map<TaskId, Task>, x: TaskId, root: TaskId)
    decreases if x in tasks then tasks[x].born else 0
  {
    x == root
    || (x in tasks && tasks[x].parent.Some?
        && tasks[x].parent.value in tasks && tasks[tasks[x].parent.value].born < tasks[x].born
        && Descends(tasks, tasks[x].parent.value, root))
  }

  ghost function Subtree(tasks: map<TaskId, Task>, root: TaskId): set<TaskId> {
    set x | x in tasks && Descends(tasks, x, root)
  }

  function Unlink(e: Entry, gone: set<TaskId>): Entry {
    if e.task.Some? && e.task.value in gone then e.(task := None) else e
  }

  function UnlinkAll(log: seq<Entry>, gone: set<TaskId>): seq<Entry> {
    if log == [] then [] else UnlinkAll(log[..|log| - 1], gone) + [Unlink(log[|log| - 1], gone)]
  }

  /** The committed state once a set of tasks is gone: their comments and attachment rows go with
      them, and log entries stay with their reference cleared. */
  function Without(db: Db, gone: set<TaskId>): Db {
    db.(tasks := db.tasks - gone,
       comments := map c | c in db.comments && db.comments[c] !in gone :: db.comments[c],
       attachments := map a | a in db.attachments && db.attachments[a].task !in gone :: db.attachments[a],
       log := UnlinkAll(db.log, gone))
  }

  ghost function Delete(db: Db, root: TaskId): Db
    requires root in db.tasks
  {
    var logged := db.(log := db.log + [Entry(db.tasks[root].project, None, Deleted)]);
    Without(logged, Subtree(db.tasks, root))
  }

  ghost function KeysOf(db: Db, tasks: set<TaskId>): set<StorageKey> {
    set a | a in db.attachments && db.attachments[a].task in tasks :: db.attachments[a].key
  }

  // ---------------------------------------------------------------- lemmas about the log

  lemma {:induction false} AppendForeign(log: seq<Entry>, e: Entry, t: TaskId, f: Field, origin: string)
    requires !About(e, t)
    ensures LastNew(log + [e], t, f, origin) == LastNew(log, t, f, origin)
    ensures Chained(log + [e], t, f, origin) == Chained(log, t, f, origin)
    ensures LastLabels(log + [e], t) == LastLabels(log, t)
    ensures LabelsChained(log + [e], t) == LabelsChained(log, t)
  {
    assert (log + [e])[..|log|] == log;
  }

  lemma {:induction false} Unmentioned(log: seq<Entry>, t: TaskId, f: Field, origin: string)
    requires forall i :: 0 <= i < |log| ==> log[i].task != Some(t)
    ensures LastNew(log, t, f, origin) == origin && Chained(log, t, f, origin)
    ensures LastLabels(log, t) == [] && LabelsChained(log, t)
  {
    if log != [] { Unmentioned(log[..|log| - 1], t, f, origin); }
  }

  lemma {:induction false} UnlinkKeepsHistory(log: seq<Entry>, gone: set<TaskId>, t: TaskId, f: Field, origin: string)
    requires t !in gone
    ensures var cut := UnlinkAll(log, gone);
            && LastNew(cut, t, f, origin) == LastNew(log, t, f, origin)
            && (Chained(cut, t, f, origin) <==> Chained(log, t, f, origin))
            && LastLabels(cut, t) == LastLabels(log, t)
            && (LabelsChained(cut, t) <==> LabelsChained(log, t))
  {
    if log != [] {
      UnlinkKeepsHistory(log[..|log| - 1], gone, t, f, origin);
      var cut := UnlinkAll(log, gone);
      assert cut[..|cut| - 1] == UnlinkAll(log[..|log| - 1], gone);
    }
  }

  /** Every entry survives a deletion, in place; only references to the deleted tasks are cleared. */
  lemma {:induction false} UnlinkAt(log: seq<Entry>, gone: set<TaskId>, i: nat)
    requires i < |log|
    ensures |UnlinkAll(log, gone)| == |log| && UnlinkAll(log, gone)[i] == Unlink(log[i], gone)
  {
    if i < |log| - 1 { UnlinkAt(log[..|log| - 1], gone, i); }
    else if i > 0 { UnlinkAt(log[..|log| - 1], gone, 0); }
  }

  // ---------------------------------------------------------------- labels

  lemma {:induction false} NamesAt(labels: map<LabelId, Label>, ids: seq<LabelId>, name: string)
    requires forall l :: l in ids ==> l in labels
    ensures name in Names(labels, ids) <==> exists l :: l in ids && labels[l].name == name
  {
    if ids != [] {
      var last := ids[|ids| - 1];
      assert ids == ids[..|ids| - 1] + [last];
      NamesAt(labels, ids[..|ids| - 1], name);
    }
  }

  lemma {:induction false} NamesDistinct(labels: map<LabelId, Label>, project: ProjectId, ids: seq<LabelId>,
                                         name: string)
    requires UniqueNames(labels) && LabelsOk(labels, project, ids)
    ensures multiset(Names(labels, ids))[name] <= 1
  {
    if ids != [] {
      var shorter, last := ids[..|ids| - 1], ids[|ids| - 1];
      NamesDistinct(labels, project, shorter, name);
      assert last !in shorter;
      NamesAt(labels, shorter, labels[last].name);
      forall l | l in shorter ensures labels[l].name != labels[last].name {
        assert l in ids && labels[l] != labels[last];
      }
    }
  }

  lemma {:induction false} RepeatedName(labels: map<LabelId, Label>, ids: seq<LabelId>, i: nat, j: nat)
    requires (forall l :: l in ids ==> l in labels) && i < j < |ids| && ids[i] == ids[j]
    ensures multiset(Names(labels, ids))[labels[ids[i]].name] >= 2
  {
    var shorter, name := ids[..|ids| - 1], labels[ids[i]].name;
    if j < |ids| - 1 {
      RepeatedName(labels, shorter, i, j);
    } else {
      assert shorter[i] == ids[i];
      NamesAt(labels, shorter, name);
      assert name in multiset(Names(labels, shorter));
    }
  }

  /** The names of distinct labels differ from those of any list that repeats one. */
  lemma RepeatsTell(labels: map<LabelId, Label>, project: ProjectId, before: seq<LabelId>, after: seq<LabelId>)
    requires UniqueNames(labels) && LabelsOk(labels, project, before)
    requires (forall l :: l in after ==> l in labels) && !NoDuplicates(after)
    ensures Sort(Names(labels, before)) != Sort(Names(labels, after))
  {
    var i, j :| 0 <= i < j < |after| && after[i] == after[j];
    RepeatedName(labels, after, i, j);
    NamesDistinct(labels, project, before, labels[after[i]].name);
    SortAlike(Names(labels, before), Names(labels, after));
  }

  /** Comparing sorted names detects exactly the changes of the set of labels, and lists that repeat one. */
  lemma NamesTellLabels(labels: map<LabelId, Label>, project: ProjectId, before: seq<LabelId>, after: seq<LabelId>)
    requires UniqueNames(labels) && LabelsOk(labels, project, before) && Resolvable(labels, project, after)
    ensures LabelDiff(labels, before, after).None? <==> (forall l :: l in before <==> l in after) && NoDuplicates(after)
  {
    if NoDuplicates(after) { NamesTellDistinct(labels, project, before, after); }
    else { RepeatsTell(labels, project, before, after); }
  }

  lemma NamesTellDistinct(labels: map<LabelId, Label>, project: ProjectId, before: seq<LabelId>, after: seq<LabelId>)
    requires UniqueNames(labels) && LabelsOk(labels, project, before) && LabelsOk(labels, project, after)
    ensures LabelDiff(labels, before, after).None? <==> forall l :: l in before <==> l in after
  {
    var a, b := Names(labels, before), Names(labels, after);
    SortAlike(a, b);
    if multiset(a) == multiset(b) {
      forall l ensures l in before <==> l in after { SameNameSameLabel(labels, project, before, after, l); }
    }
    if forall l :: l in before <==> l in after {
      forall name: string ensures multiset(a)[name] == multiset(b)[name] {
        NamesDistinct(labels, project, before, name);
        NamesDistinct(labels, project, after, name);
        NamesAt(labels, before, name);
        NamesAt(labels, after, name);
        assert name in a <==> name in multiset(a);
        assert name in b <==> name in multiset(b);
      }
    }
  }

  lemma SameNameSameLabel(labels: map<LabelId, Label>, project: ProjectId, before: seq<LabelId>, after: seq<LabelId>,
                          l: LabelId)
    requires UniqueNames(labels) && LabelsOk(labels, project, before) && LabelsOk(labels, project, after)
    requires multiset(Names(labels, before)) == multiset(Names(labels, after))
    ensures l in before <==> l in after
  {
    if l in labels && labels[l].project == project {
      var name := labels[l].name;
      NamesAt(labels, before, name);
      NamesAt(labels, after, name);
      assert name in Names(labels, before) <==> name in multiset(Names(labels, before));
      assert name in Names(labels, after) <==> name in multiset(Names(labels, after));
      assert l in before ==> exists m :: m in before && labels[m].name == name;
      assert l in after ==> exists m :: m in after && labels[m].name == name;
      forall m | (m in before || m in after) && labels[m].name == name ensures m == l {
        assert labels[m] == labels[l];
      }
    }
  }

  // ---------------------------------------------------------------- histories grow

  lemma FieldsForeign(log: seq<Entry>, e: Entry, t: TaskId, x: Task)
    requires !About(e, t) && FieldsReplay(log, t, x)
    ensures FieldsReplay(log + [e], t, x)
  {
    forall f {:trigger Get(x.origin, f)}
      ensures Chained(log + [e], t, f, Str(Get(x.origin, f)))
      ensures LastNew(log + [e], t, f, Str(Get(x.origin, f))) == Str(Get(x.values, f))
    {
      AppendForeign(log, e, t, f, Str(Get(x.origin, f)));
    }
  }

  lemma LabelsForeign(log: seq<Entry>, e: Entry, t: TaskId, x: Task, labels: map<LabelId, Label>)
    requires !About(e, t)
    ensures LabelsReplay(log + [e], t, x, labels) <==> LabelsReplay(log, t, x, labels)
  {
    AppendForeign(log, e, t, Title, "");
  }

  lemma HistoryFresh(log: seq<Entry>, e: Entry, t: TaskId, x: Task, labels: map<LabelId, Label>)
    requires (forall i :: 0 <= i < |log| ==> log[i].task != Some(t)) && !About(e, t)
    requires x.labels == [] && x.values == x.origin
    ensures FieldsReplay(log + [e], t, x) && LabelsReplay(log + [e], t, x, labels)
  {
    forall f {:trigger Get(x.origin, f)}
      ensures Chained(log, t, f, Str(Get(x.origin, f)))
      ensures LastNew(log, t, f, Str(Get(x.origin, f))) == Str(Get(x.values, f))
    {
      Unmentioned(log, t, f, Str(Get(x.origin, f)));
    }
    Unmentioned(log, t, Title, "");
    FieldsForeign(log, e, t, x);
    LabelsForeign(log, e, t, x, labels);
  }

  lemma OwnField(log: seq<Entry>, t: TaskId, e: Entry, f: Field, v: Values, u: Updates, origin: string)
    requires About(e, t) && e.what.changes == Changes(v, u)
    requires Chained(log, t, f, origin) && LastNew(log, t, f, origin) == Str(Get(v, f))
    ensures Chained(log + [e], t, f, origin)
    ensures LastNew(log + [e], t, f, origin) == Str(Get(Overwrite(v, u), f))
  {
    assert (log + [e])[..|log|] == log;
  }

  /** Appending an update's entry, or none if nothing changed, keeps the fields' history replaying to
      the updated values: each `old` is the preceding `new`, and the last `new` is the value. */
  lemma FieldsOwn(log: seq<Entry>, t: TaskId, x: Task, u: Updates, diff: Option<LabelChange>, ids: seq<LabelId>)
    requires FieldsReplay(log, t, x)
    ensures FieldsReplay(Noted(log, x.project, t, Changes(x.values, u), diff), t,
                         x.(values := Overwrite(x.values, u), labels := ids))
  {
    if Changes(x.values, u) == map[] && diff.None? {
      NoFieldChanged(x.values, u);
    } else {
      var e := Entry(x.project, Some(t), Updated(Changes(x.values, u), diff));
      forall f {:trigger Get(x.origin, f)}
        ensures Chained(log + [e], t, f, Str(Get(x.origin, f)))
        ensures LastNew(log + [e], t, f, Str(Get(x.origin, f))) == Str(Get(Overwrite(x.values, u), f))
      {
        OwnField(log, t, e, f, x.values, u, Str(Get(x.origin, f)));
      }
    }
  }

  lemma NoFieldChanged(v: Values, u: Updates)
    requires Changes(v, u) == map[]
    ensures Overwrite(v, u) == v
  {
    forall f ensures Get(Overwrite(v, u), f) == Get(v, f) { assert f !in Changes(v, u); }
    SameValues(Overwrite(v, u), v);
  }

  lemma LabelEntry(log: seq<Entry>, t: TaskId, e: Entry)
    requires About(e, t)
    ensures LastLabels(log + [e], t) == if e.what.labels.Some? then e.what.labels.value.new_ else LastLabels(log, t)
    ensures LabelsChained(log + [e], t) <==>
              LabelsChained(log, t)
              && (e.what.labels.Some? ==>
                    e.what.labels.value.old_ == LastLabels(log, t)
                        && e.what.labels.value.old_ != e.what.labels.value.new_)
  {
    assert (log + [e])[..|log|] == log;
  }

  /** After an update of its own, a task's label history replays if and only if it did before and the
      update named no label twice. */
  lemma LabelsOwn(log: seq<Entry>, t: TaskId, x: Task, labels: map<LabelId, Label>, changes: map<Field, Change>,
                  v: Values, ids: seq<LabelId>)
    requires UniqueNames(labels) && LabelsOk(labels, x.project, x.labels) && Resolvable(labels, x.project, ids)
    ensures LabelsReplay(Noted(log, x.project, t, changes, LabelDiff(labels, x.labels, ids)), t,
                         x.(values := v, labels := Distinct(ids)), labels)
       <==> LabelsReplay(log, t, x, labels) && NoDuplicates(ids)
  {
    var diff := LabelDiff(labels, x.labels, ids);
    LabelEntry(log, t, Entry(x.project, Some(t), Updated(changes, diff)));
    NamesTellLabels(labels, x.project, x.labels, ids);
    if !NoDuplicates(ids) { RepeatsTell(labels, x.project, Distinct(ids), ids); }
  }

  lemma SortPair(name: string, names: seq<string>)
    requires (|names| == 1 || |names| == 2) && forall i :: 0 <= i < |names| ==> names[i] == name
    ensures Sort(names) == names
  {
    if |names| == 1 {
      assert Sort(names) == Insert(names[0], Sort(names[1..])) && names[1..] == [];
    } else {
      SortPair(name, names[1..]);
      assert names == [names[0]] + names[1..];
      Total(name, name);
    }
  }

  lemma NamesTwice(labels: map<LabelId, Label>, l: LabelId, ids: seq<LabelId>)
    requires l in labels && (|ids| == 1 || |ids| == 2) && forall i :: 0 <= i < |ids| ==> ids[i] == l
    ensures |Names(labels, ids)| == |ids| && forall i :: 0 <= i < |ids| ==> Names(labels, ids)[i] == labels[l].name
    ensures Distinct(ids) == [l]
  {
    var shorter := ids[..|ids| - 1];
    if |ids| == 2 {
      NamesTwice(labels, l, shorter);
      assert shorter[0] == l;
    } else {
      assert shorter == [];
    }
  }

  /** One input: a task linked to one label, and an update that names that label twice. The log says
      there are two now, the task still has the one, and its history no longer replays. */
  lemma RepeatSpoilsHistory(db: Db, t: TaskId, l: LabelId, ids: seq<LabelId>)
    requires |ids| == 2 && ids[0] == ids[1] == l && LabelsKnown(db, t, Some(ids)) && db.tasks[t].labels == [l]
    requires UniqueNames(db.labels) && TaskOk(db, db.tasks[t]) && LabelsReplay(db.log, t, db.tasks[t], db.labels)
    ensures var now, name := Update(db, t, map[], Some(ids)), db.labels[l].name;
            && now.tasks[t].labels == [l] && LastLabels(now.log, t) == [name, name]
            && !LabelsReplay(now.log, t, now.tasks[t], now.labels)
  {
    var x := db.tasks[t];
    var diff := LabelDiff(db.labels, x.labels, ids);
    TwiceDiffers(db.labels, l, x.labels, ids);
    LabelsOwn(db.log, t, x, db.labels, Changes(x.values, map[]), Overwrite(x.values, map[]), ids);
    LabelEntry(db.log, t, Entry(x.project, Some(t), Updated(Changes(x.values, map[]), diff)));
  }

  lemma TwiceDiffers(labels: map<LabelId, Label>, l: LabelId, one: seq<LabelId>, ids: seq<LabelId>)
    requires l in labels && one == [l] && |ids| == 2 && ids[0] == ids[1] == l
    ensures (forall x :: x in ids ==> x in labels) && Distinct(ids) == [l] && !NoDuplicates(ids)
    ensures LabelDiff(labels, one, ids) == Some(LabelChange([labels[l].name], [labels[l].name, labels[l].name]))
  {
    NamesTwice(labels, l, one);
    NamesTwice(labels, l, ids);
    SortPair(labels[l].name, Names(labels, one));
    SortPair(labels[l].name, Names(labels, ids));
    assert Names(labels, one) == [labels[l].name] && Names(labels, ids) == [labels[l].name, labels[l].name];
  }

  // ---------------------------------------------------------------- each request keeps the invariant

  lemma CreateKeepsTask(db: Db, t: TaskId, project: ProjectId, values: Values, parent: Option<TaskId>, position: int,
                        x: TaskId)
    requires NothingDangles(db) && t !in db.tasks && NotNull(values)
    requires CreateRefusal(db, project, values, parent).Done?
    requires x == t || (x in db.tasks && TaskOk(db, db.tasks[x]) && FieldsReplay(db.log, x, db.tasks[x]))
    ensures var now := WithTask(db, t, project, values, parent, position);
            && TaskOk(now, now.tasks[x]) && FieldsReplay(now.log, x, now.tasks[x])
            && (LabelsReplay(now.log, x, now.tasks[x], now.labels) <==>
                  x == t || LabelsReplay(db.log, x, db.tasks[x], db.labels))
  {
    var now, e := WithTask(db, t, project, values, parent, position), Entry(project, Some(t), Created);
    if x == t {
      HistoryFresh(db.log, e, t, now.tasks[t], db.labels);
    } else {
      FieldsForeign(db.log, e, x, db.tasks[x]);
      LabelsForeign(db.log, e, x, db.tasks[x], db.labels);
    }
  }

  lemma CreateKeepsLinks(db: Db, t: TaskId, project: ProjectId, values: Values, parent: Option<TaskId>, position: int)
    requires IsForest(db.tasks) && NothingDangles(db) && t !in db.tasks
    requires parent.Some? ==>
               parent.value in db.tasks && db.tasks[parent.value].project == project
                   && db.tasks[parent.value].born < db.clock
    ensures var now := WithTask(db, t, project, values, parent, position); IsForest(now.tasks) && NothingDangles(now)
  {
  }

  /** The tasks some committed update of which named a label twice; exactly theirs is the label
      history that does not replay. */
  ghost predicate LabelHistories(db: Db, repeated: set<TaskId>) {
    forall t {:trigger db.tasks[t]} :: t in db.tasks ==>
      (LabelsReplay(db.log, t, db.tasks[t], db.labels) <==> t !in repeated)
  }

  lemma CreateKeeps(db: Db, t: TaskId, project: ProjectId, values: Values, parent: Option<TaskId>, position: int,
                    repeated: set<TaskId>)
    requires Consistent(db) && t !in db.tasks && NotNull(values) && LabelHistories(db, repeated)
    requires CreateRefusal(db, project, values, parent).Done?
    ensures Consistent(WithTask(db, t, project, values, parent, position))
    ensures LabelHistories(WithTask(db, t, project, values, parent, position), repeated - {t})
  {
    var now := WithTask(db, t, project, values, parent, position);
    if parent.Some? { assert TaskOk(db, db.tasks[parent.value]); }
    CreateKeepsLinks(db, t, project, values, parent, position);
    forall x | x in now.tasks
      ensures TaskOk(now, now.tasks[x]) && FieldsReplay(now.log, x, now.tasks[x])
      ensures LabelsReplay(now.log, x, now.tasks[x], now.labels) <==> x !in repeated - {t}
    {
      if x != t { assert TaskOk(db, db.tasks[x]); }
      CreateKeepsTask(db, t, project, values, parent, position, x);
    }
  }

  /** What a creation means to a reader: one new task, as asked for, and nothing else changes. */
  ghost predicate CreatedOnly(was: Db, now: Db, t: TaskId, project: ProjectId, values: Values, parent: Option<TaskId>) {
    && t !in was.tasks && now.tasks.Keys == was.tasks.Keys + {t}
    && (forall x :: x in was.tasks ==> now.tasks[x] == was.tasks[x])
    && now.tasks[t].project == project && now.tasks[t].parent == parent && now.tasks[t].labels == []
    && (forall f :: Get(now.tasks[t].values, f) == Get(values, f))
    && now.comments == was.comments && now.attachments == was.attachments
    && now.labels == was.labels && now.members == was.members
    && LoggedOnce(was.log, now.log, project, Some(t)) && now.log[|was.log|].what == Created
  }

  lemma CreateEffect(db: Db, t: TaskId, project: ProjectId, values: Values, parent: Option<TaskId>, position: int)
    requires t !in db.tasks
    ensures CreatedOnly(db, WithTask(db, t, project, values, parent, position), t, project, values, parent)
  {
  }

  /** Nothing moves in the forest when a leaf is added. */
  lemma {:induction false} DescentStays(was: map<TaskId, Task>, now: map<TaskId, Task>, t: TaskId, x: TaskId, q: TaskId)
    requires IsForest(was) && t !in was && now.Keys == was.Keys + {t} && x in was
    requires forall y :: y in was ==> now[y] == was[y]
    ensures Descends(now, x, q) <==> Descends(was, x, q)
    decreases was[x].born
  {
    if was[x].parent.Some? { DescentStays(was, now, t, was[x].parent.value, q); }
  }

  /** A task created under p descends from p and from exactly what p descends from. */
  lemma SubtaskBelongs(was: Db, now: Db, t: TaskId, project: ProjectId, values: Values, p: TaskId, q: TaskId)
    requires IsForest(was.tasks) && IsForest(now.tasks) && p in was.tasks
    requires CreatedOnly(was, now, t, project, values, Some(p))
    ensures Descends(now.tasks, t, p)
    ensures q != t ==> (Descends(now.tasks, t, q) <==> Descends(was.tasks, p, q))
  {
    DescentStays(was.tasks, now.tasks, t, p, q);
    DescentStays(was.tasks, now.tasks, t, p, p);
  }

  /** A creation is accepted if and only if the assignee, if any, is a member of the project and the
      parent, if any, is one of its tasks; the assignee is looked at first. */
  lemma CreateAcceptedIff(db: Db, project: ProjectId, values: Values, parent: Option<TaskId>)
    ensures CreateRefusal(db, project, values, parent).Done? <==>
              && (values.assignee == None || exists m :: m in db.members && m == (project, values.assignee.value))
              && (parent == None || (parent.value in db.tasks && db.tasks[parent.value].project == project))
    ensures CreateRefusal(db, project, values, parent) == Refused(AssigneeNotMember) <==>
              values.assignee != None && (project, values.assignee.value) !in db.members
    ensures CreateRefusal(db, project, values, parent) == Refused(ForeignParent) <==>
              && (values.assignee == None || (project, values.assignee.value) in db.members)
              && parent != None && (parent.value in db.tasks ==> db.tasks[parent.value].project != project)
  {
  }

  /** An update is accepted if and only if the assignee it names, if it names one and does not clear
      it, is a member, every label it names is one of the project, it leaves a title, a status and a
      priority, and it names no label twice unless the ORM lets that pass. What is wrong is reported in
      this order. */
  lemma UpdateAcceptedIff(db: Db, t: TaskId, u: Updates, labelIds: Option<seq<LabelId>>, once: bool)
    requires t in db.tasks && TaskOk(db, db.tasks[t])
    ensures UpdateRefusal(db, t, u, labelIds, once).Done? <==>
              var project := db.tasks[t].project;
              && (Assignee in u && u[Assignee] != None ==> (project, u[Assignee].value) in db.members)
              && (labelIds != None ==>
                    forall l :: l in labelIds.value ==> l in db.labels && db.labels[l].project == project)
              && (forall f :: f in u && f in {Title, Status, Priority} ==> u[f] != None)
              && (labelIds == None || once || NoDuplicates(labelIds.value))
    ensures UpdateRefusal(db, t, u, labelIds, once) == Refused(AssigneeNotMember) <==>
              Assignee in u && u[Assignee] != None && (db.tasks[t].project, u[Assignee].value) !in db.members
    ensures UpdateRefusal(db, t, u, labelIds, once) == Refused(ForeignLabel) <==>
              var project := db.tasks[t].project;
              && (Assignee in u && u[Assignee] != None ==> (project, u[Assignee].value) in db.members)
              && labelIds != None
              && exists l :: l in labelIds.value && (l in db.labels ==> db.labels[l].project != project)
    ensures UpdateRefusal(db, t, u, labelIds, once) == Refused(NullColumn) <==>
              && UpdateRefusal(db, t, u, labelIds, once) !in {Refused(AssigneeNotMember), Refused(ForeignLabel)}
              && exists f :: f in u && f in {Title, Status, Priority} && u[f] == None
    ensures UpdateRefusal(db, t, u, labelIds, once) == Refused(RepeatedLabel) <==>
              && UpdateRefusal(db, t, u, labelIds, once) !in {Refused(AssigneeNotMember), Refused(ForeignLabel)}
              && (forall f :: f in u && f in {Title, Status, Priority} ==> u[f] != None)
              && labelIds != None && !NoDuplicates(labelIds.value) && !once
  {
    var v := db.tasks[t].values;
    NotNullIff(Overwrite(v, u));
    assert forall f :: Get(Overwrite(v, u), f) == if f in u then u[f] else Get(v, f);
    NotNullIff(v);
  }

  lemma NotNullIff(v: Values)
    ensures NotNull(v) <==> forall f :: f in {Title, Status, Priority} ==> Get(v, f) != None
  {
    assert Get(v, Title) == v.title && Get(v, Status) == v.status && Get(v, Priority) == v.priority;
  }

  lemma UpdateKeepsTask(db: Db, t: TaskId, u: Updates, labelIds: Option<seq<LabelId>>, once: bool)
    requires t in db.tasks && UpdateRefusal(db, t, u, labelIds, once).Done? && TaskOk(db, db.tasks[t])
    ensures LabelsKnown(db, t, labelIds) && TaskOk(db, Update(db, t, u, labelIds).tasks[t])
  {
  }

  lemma UpdateKeepsLinks(db: Db, t: TaskId, u: Updates, labelIds: Option<seq<LabelId>>)
    requires IsForest(db.tasks) && NothingDangles(db) && LabelsKnown(db, t, labelIds)
    ensures var now := Update(db, t, u, labelIds); IsForest(now.tasks) && NothingDangles(now)
  {
  }

  lemma UpdateKeepsHistory(db: Db, t: TaskId, u: Updates, labelIds: Option<seq<LabelId>>, y: TaskId)
    requires LabelsKnown(db, t, labelIds) && UniqueNames(db.labels) && TaskOk(db, db.tasks[t])
    requires y in db.tasks && TaskOk(db, db.tasks[y]) && FieldsReplay(db.log, y, db.tasks[y])
    ensures var now := Update(db, t, u, labelIds);
            && FieldsReplay(now.log, y, now.tasks[y])
            && (LabelsReplay(now.log, y, now.tasks[y], db.labels) <==>
                  LabelsReplay(db.log, y, db.tasks[y], db.labels) && (y == t ==> !Repeats(labelIds)))
  {
    var x, ids := db.tasks[t], Wanted(db.tasks[t], labelIds);
    var changes, diff := Changes(x.values, u), LabelDiff(db.labels, x.labels, ids);
    if y != t {
      var e := Entry(x.project, Some(t), Updated(changes, diff));
      FieldsForeign(db.log, e, y, db.tasks[y]);
      LabelsForeign(db.log, e, y, db.tasks[y], db.labels);
    } else {
      FieldsOwn(db.log, t, x, u, diff, Distinct(ids));
      LabelsOwn(db.log, t, x, db.labels, changes, Overwrite(x.values, u), ids);
    }
  }

  lemma UpdateKeeps(db: Db, t: TaskId, u: Updates, labelIds: Option<seq<LabelId>>, once: bool, repeated: set<TaskId>)
    requires Consistent(db) && t in db.tasks && UpdateRefusal(db, t, u, labelIds, once).Done?
               && LabelHistories(db, repeated)
    ensures LabelsKnown(db, t, labelIds) && Consistent(Update(db, t, u, labelIds))
    ensures LabelHistories(Update(db, t, u, labelIds), if Repeats(labelIds) then repeated + {t} else repeated)
  {
    assert TaskOk(db, db.tasks[t]);
    UpdateKeepsTask(db, t, u, labelIds, once);
    UpdateKeepsLinks(db, t, u, labelIds);
    var now := Update(db, t, u, labelIds);
    forall y | y in now.tasks
      ensures TaskOk(now, now.tasks[y]) && FieldsReplay(now.log, y, now.tasks[y])
      ensures LabelsReplay(now.log, y, now.tasks[y], now.labels) <==>
              y !in (if Repeats(labelIds) then repeated + {t} else repeated)
    {
      assert TaskOk(db, db.tasks[y]);
      UpdateKeepsHistory(db, t, u, labelIds, y);
    }
  }

  /** What an update means to a reader: the named fields and the labels take their new values, and
      nothing else changes. */
  ghost predicate UpdatedOnly(was: Db, now: Db, t: TaskId, u: Updates, labelIds: Option<seq<LabelId>>)
    requires t in was.tasks
  {
    && now.tasks.Keys == was.tasks.Keys
    && (forall y :: y in was.tasks && y != t ==> now.tasks[y] == was.tasks[y])
    && (forall f :: Get(now.tasks[t].values, f) == if f in u then u[f] else Get(was.tasks[t].values, f))
    && (forall l :: l in now.tasks[t].labels <==> l in Wanted(was.tasks[t], labelIds))
    && now.tasks[t].project == was.tasks[t].project
    && now.tasks[t].parent == was.tasks[t].parent && now.tasks[t].position == was.tasks[t].position
    && now.comments == was.comments && now.attachments == was.attachments
    && now.labels == was.labels && now.members == was.members
    && (now.log == was.log
        || (LoggedOnce(was.log, now.log, was.tasks[t].project, Some(t)) && now.log[|was.log|].what.Updated?))
  }

  /** The log gained exactly one entry, of this project and about this task. */
  ghost predicate LoggedOnce(was: seq<Entry>, now: seq<Entry>, project: ProjectId, task: Option<TaskId>) {
    && |now| == |was| + 1 && now[..|was|] == was
    && now[|was|].project == project && now[|was|].task == task
  }

  lemma UpdateEffect(db: Db, t: TaskId, u: Updates, labelIds: Option<seq<LabelId>>)
    requires LabelsKnown(db, t, labelIds)
    ensures UpdatedOnly(db, Update(db, t, u, labelIds), t, u, labelIds)
  {
  }

  lemma UpdateIsSound(db: Db, t: TaskId, u: Updates, labelIds: Option<seq<LabelId>>, once: bool, repeated: set<TaskId>)
    requires Consistent(db) && Positioned(db) && LabelHistories(db, repeated)
    requires t in db.tasks && UpdateRefusal(db, t, u, labelIds, once).Done?
    ensures LabelsKnown(db, t, labelIds)
    ensures var now := Update(db, t, u, labelIds);
            && Consistent(now) && Positioned(now) && UpdatedOnly(db, now, t, u, labelIds)
            && LabelHistories(now, if Repeats(labelIds) then repeated + {t} else repeated)
  {
    UpdateKeeps(db, t, u, labelIds, once, repeated);
    UpdateKeepsPositions(db, t, u, labelIds);
    UpdateEffect(db, t, u, labelIds);
  }

  /** An entry is logged exactly when some value or the set of labels really changed, or a label was
      named twice. */
  lemma LoggedIffChanged(db: Db, t: TaskId, u: Updates, labelIds: Option<seq<LabelId>>)
    requires UniqueNames(db.labels) && LabelsKnown(db, t, labelIds) && TaskOk(db, db.tasks[t])
    ensures Update(db, t, u, labelIds).log == db.log <==>
              && (forall f :: f in u ==> u[f] == Get(db.tasks[t].values, f))
              && (forall l :: l in Wanted(db.tasks[t], labelIds) <==> l in db.tasks[t].labels)
              && !Repeats(labelIds)
  {
    var x := db.tasks[t];
    NamesTellLabels(db.labels, x.project, x.labels, Wanted(x, labelIds));
    NoChanges(x.values, u);
  }

  /** What is recorded of a field, and for which fields. */
  lemma ChangesSay(v: Values, u: Updates, f: Field)
    ensures f in Changes(v, u) <==> f in u && u[f] != Get(v, f)
    ensures f in Changes(v, u) ==>
              && Changes(v, u)[f].old_ == (match Get(v, f) case None => "None" case Some(text) => text)
              && Changes(v, u)[f].new_ == (match u[f] case None => "None" case Some(text) => text)
  {
  }

  lemma NoChanges(v: Values, u: Updates)
    ensures Changes(v, u) == map[] <==> forall f :: f in u ==> u[f] == Get(v, f)
  {
    if f: Field :| f in u && u[f] != Get(v, f) { assert f in Changes(v, u); }
  }

  lemma HistoryUnlinked(log: seq<Entry>, gone: set<TaskId>, t: TaskId, x: Task, labels: map<LabelId, Label>)
    requires t !in gone && FieldsReplay(log, t, x)
    ensures FieldsReplay(UnlinkAll(log, gone), t, x)
    ensures LabelsReplay(UnlinkAll(log, gone), t, x, labels) <==> LabelsReplay(log, t, x, labels)
  {
    forall f {:trigger Get(x.origin, f)}
      ensures Chained(UnlinkAll(log, gone), t, f, Str(Get(x.origin, f)))
      ensures LastNew(UnlinkAll(log, gone), t, f, Str(Get(x.origin, f))) == Str(Get(x.values, f))
    {
      UnlinkKeepsHistory(log, gone, t, f, Str(Get(x.origin, f)));
    }
    UnlinkKeepsHistory(log, gone, t, Title, "");
  }

  /** Removing any set of tasks that contains the children of its members leaves a consistent state. */
  lemma WithoutKeeps(db: Db, gone: set<TaskId>, repeated: set<TaskId>)
    requires Consistent(db) && LabelHistories(db, repeated)
    requires forall t :: t in db.tasks && db.tasks[t].parent.Some? && db.tasks[t].parent.value in gone ==> t in gone
    ensures Consistent(Without(db, gone)) && LabelHistories(Without(db, gone), repeated)
  {
    var now := Without(db, gone);
    WithoutKeepsLinks(db, gone);
    forall t | t in now.tasks
      ensures TaskOk(now, now.tasks[t]) && FieldsReplay(now.log, t, now.tasks[t])
      ensures LabelsReplay(now.log, t, now.tasks[t], now.labels) <==> t !in repeated
    {
      assert TaskOk(db, db.tasks[t]);
      HistoryUnlinked(db.log, gone, t, db.tasks[t], db.labels);
    }
  }

  lemma WithoutKeepsLinks(db: Db, gone: set<TaskId>)
    requires IsForest(db.tasks) && NothingDangles(db)
    requires forall t :: t in db.tasks && db.tasks[t].parent.Some? && db.tasks[t].parent.value in gone ==> t in gone
    ensures IsForest(Without(db, gone).tasks) && NothingDangles(Without(db, gone))
  {
    var now := Without(db, gone);
    forall i | 0 <= i < |now.log| && now.log[i].task.Some? ensures now.log[i].task.value in now.tasks {
      if db.log != [] { UnlinkAt(db.log, gone, 0); }
      UnlinkAt(db.log, gone, i);
    }
  }

  lemma LoggedKeeps(db: Db, e: Entry, repeated: set<TaskId>)
    requires Consistent(db) && e.task.None? && LabelHistories(db, repeated)
    ensures Consistent(db.(log := db.log + [e])) && LabelHistories(db.(log := db.log + [e]), repeated)
  {
    var now := db.(log := db.log + [e]);
    forall t | t in db.tasks
      ensures TaskOk(now, db.tasks[t]) && FieldsReplay(now.log, t, db.tasks[t])
      ensures LabelsReplay(now.log, t, db.tasks[t], db.labels) <==> t !in repeated
    {
      assert TaskOk(db, db.tasks[t]);
      FieldsForeign(db.log, e, t, db.tasks[t]);
      LabelsForeign(db.log, e, t, db.tasks[t], db.labels);
    }
  }

  lemma DeleteKeeps(db: Db, root: TaskId, repeated: set<TaskId>)
    requires Consistent(db) && root in db.tasks && LabelHistories(db, repeated)
    ensures Consistent(Delete(db, root)) && LabelHistories(Delete(db, root), repeated)
  {
    var e := Entry(db.tasks[root].project, None, Deleted);
    LoggedKeeps(db, e, repeated);
    WithoutKeeps(db.(log := db.log + [e]), Subtree(db.tasks, root), repeated);
  }

  /** A deletion takes exactly the task's descendant closure, with its comments and attachment
      rows, and no remaining parent link dangles. */
  ghost predicate TookClosure(was: Db, now: Db, root: TaskId) {
    && (forall t :: t in now.tasks <==> t in was.tasks && !Descends(was.tasks, t, root))
    && (forall t :: t in now.tasks ==> now.tasks[t] == was.tasks[t])
    && (forall t :: t in now.tasks && now.tasks[t].parent.Some? ==> now.tasks[t].parent.value in now.tasks)
    && (forall c :: c in now.comments <==> c in was.comments && !Descends(was.tasks, was.comments[c], root))
    && (forall a :: a in now.attachments <==>
          a in was.attachments && !Descends(was.tasks, was.attachments[a].task, root))
    && (forall c :: c in now.comments ==> now.comments[c] == was.comments[c])
    && (forall a :: a in now.attachments ==> now.attachments[a] == was.attachments[a])
    && now.labels == was.labels && now.members == was.members
  }

  lemma DeleteTakesClosure(db: Db, root: TaskId)
    requires IsForest(db.tasks) && NothingDangles(db) && root in db.tasks
    ensures TookClosure(db, Delete(db, root), root)
  {
  }

  /** It adds one entry to the log and keeps all others, clearing only references into the closure. */
  lemma DeleteKeepsLog(db: Db, root: TaskId, i: nat)
    requires NothingDangles(db) && root in db.tasks
    ensures |Delete(db, root).log| == |db.log| + 1
    ensures var last := Delete(db, root).log[|db.log|];
            last.what == Deleted && last.task == None && last.project == db.tasks[root].project
    ensures i < |db.log| ==>
              var was, now := db.log[i], Delete(db, root).log[i];
              && now.what == was.what && now.project == was.project
              && now.task == if was.task.Some? && Descends(db.tasks, was.task.value, root) then None else was.task
  {
    var log := db.log + [Entry(db.tasks[root].project, None, Deleted)];
    UnlinkAt(log, Subtree(db.tasks, root), |db.log|);
    if i < |db.log| { UnlinkAt(log, Subtree(db.tasks, root), i); }
  }

  // ---------------------------------------------------------------- positions follow creation

  predicate NeverMoved(log: seq<Entry>, t: TaskId) {
    forall i :: 0 <= i < |log| && About(log[i], t) ==> Status !in log[i].what.changes
  }

  /** In each column, a task that never changed its status comes before every task created there later. */
  ghost predicate Positioned(db: Db) {
    forall a, b :: a in db.tasks && b in db.tasks && db.tasks[a].project == db.tasks[b].project
                   && db.tasks[a].born < db.tasks[b].born
                   && db.tasks[a].origin.status == db.tasks[b].origin.status && NeverMoved(db.log, a)
      ==> db.tasks[a].position < db.tasks[b].position
  }

  lemma {:induction false} NeverMovedStays(log: seq<Entry>, t: TaskId, origin: string)
    requires NeverMoved(log, t)
    ensures LastNew(log, t, Status, origin) == origin
  {
    if log != [] {
      assert NeverMoved(log[..|log| - 1], t);
      NeverMovedStays(log[..|log| - 1], t, origin);
    }
  }

  lemma NeverMovedPrefix(log: seq<Entry>, e: Entry, t: TaskId)
    requires NeverMoved(log + [e], t)
    ensures NeverMoved(log, t)
  {
    assert forall i :: 0 <= i < |log| ==> (log + [e])[i] == log[i];
  }

  lemma CreateKeepsPositions(db: Db, t: TaskId, project: ProjectId, values: Values, parent: Option<TaskId>,
                             position: int)
    requires Consistent(db) && Positioned(db) && t !in db.tasks && NotNull(values)
    requires IsNextPosition(db, project, values.status, position)
    ensures Positioned(WithTask(db, t, project, values, parent, position))
  {
    var now := WithTask(db, t, project, values, parent, position);
    forall a | a in db.tasks && NeverMoved(now.log, a) ensures NeverMoved(db.log, a) {
      NeverMovedPrefix(db.log, Entry(project, Some(t), Created), a);
    }
    forall a | a in db.tasks ensures db.tasks[a].born < db.clock { assert TaskOk(db, db.tasks[a]); }
    forall a | a in db.tasks && db.tasks[a].project == project && db.tasks[a].origin.status == values.status
               && NeverMoved(now.log, a)
      ensures db.tasks[a].position < position
    {
      InColumn(db, a);
      BelowNext(db, project, values.status, position, a);
    }
  }

  lemma BelowNext(db: Db, project: ProjectId, status: Value, position: int, a: TaskId)
    requires IsNextPosition(db, project, status, position)
    requires a in db.tasks && db.tasks[a].project == project && db.tasks[a].values.status == status
    ensures db.tasks[a].position < position
  {
    assert a in ColumnOf(db, project, status);
  }

  lemma InColumn(db: Db, a: TaskId)
    requires Consistent(db) && a in db.tasks && NeverMoved(db.log, a) && db.tasks[a].origin.status.Some?
    ensures db.tasks[a].values.status == db.tasks[a].origin.status
  {
    var x := db.tasks[a];
    assert TaskOk(db, x) && FieldsReplay(db.log, a, x);
    NeverMovedStays(db.log, a, Str(Get(x.origin, Status)));
    assert Get(x.values, Status) == x.values.status && Get(x.origin, Status) == x.origin.status;
  }

  lemma UpdateKeepsPositions(db: Db, t: TaskId, u: Updates, labelIds: Option<seq<LabelId>>)
    requires Positioned(db) && LabelsKnown(db, t, labelIds)
    ensures Positioned(Update(db, t, u, labelIds))
  {
    var now := Update(db, t, u, labelIds);
    forall a | NeverMoved(now.log, a) ensures NeverMoved(db.log, a) {
      if now.log != db.log { NeverMovedPrefix(db.log, now.log[|db.log|], a); }
    }
  }

  lemma DeleteKeepsPositions(db: Db, root: TaskId)
    requires Positioned(db) && root in db.tasks
    ensures Positioned(Delete(db, root))
  {
    var gone := Subtree(db.tasks, root);
    var log := db.log + [Entry(db.tasks[root].project, None, Deleted)];
    var now := Delete(db, root);
    UnlinkAt(log, gone, 0);
    forall a | a in now.tasks && NeverMoved(now.log, a) ensures NeverMoved(db.log, a) {
      forall i | 0 <= i < |db.log| && About(db.log[i], a) ensures Status !in db.log[i].what.changes {
        UnlinkAt(log, gone, i);
        assert About(now.log[i], a);
      }
    }
  }

  // ---------------------------------------------------------------- what a deletion leaves in the bucket

  ghost function Orphans(db: Db, bucket: set<StorageKey>): set<StorageKey> {
    bucket - set a | a in db.attachments :: db.attachments[a].key
  }

  lemma OrphanSets(rows: map<AttachmentId, Attachment>, bucket: set<StorageKey>, gone: set<TaskId>, root: TaskId,
                   key: StorageKey)
    requires forall a, b :: a in rows && b in rows && rows[a].key == rows[b].key ==> a == b
    requires (forall a :: a in rows ==> rows[a].key in bucket) && root in gone
    ensures var dropped := exists a :: a in rows && rows[a].task == root && rows[a].key == key;
            var kept := exists a :: a in rows && rows[a].task !in gone && rows[a].key == key;
            var doomed := exists a :: a in rows && rows[a].task in gone - {root} && rows[a].key == key;
            var was := exists a :: a in rows && rows[a].key == key;
            && (kept ==> key in bucket && !dropped)
            && ((key in bucket && !dropped && !kept && !(key in bucket && !was)) <==> doomed)
  {
  }

  /** After a completed delete every remaining row has its object, and the objects newly orphaned
      are exactly those attached to strict descendants of the deleted task. */
  lemma OrphansAreDescendants(db: Db, bucket: set<StorageKey>, root: TaskId)
    requires NothingDangles(db) && root in db.tasks && RowsHaveObjects(db.attachments, bucket)
    ensures var now, left := Delete(db, root), bucket - KeysOf(db, {root});
            && RowsHaveObjects(now.attachments, left)
            && Orphans(now, left) - Orphans(db, bucket) == KeysOf(db, Subtree(db.tasks, root) - {root})
  {
    NewOrphans(db.attachments, Delete(db, root), db, bucket, Subtree(db.tasks, root), root);
  }

  lemma NewOrphans(rows: map<AttachmentId, Attachment>, now: Db, db: Db, bucket: set<StorageKey>, gone: set<TaskId>,
                   root: TaskId)
    requires rows == db.attachments && RowsHaveObjects(db.attachments, bucket) && root in gone
    requires forall a, b :: a in rows && b in rows && rows[a].key == rows[b].key ==> a == b
    requires now.attachments == map a | a in rows && rows[a].task !in gone :: rows[a]
    ensures RowsHaveObjects(now.attachments, bucket - KeysOf(db, {root}))
    ensures Orphans(now, bucket - KeysOf(db, {root})) - Orphans(db, bucket) == KeysOf(db, gone - {root})
  {
    assert forall a :: a in rows && rows[a].task !in gone <==> a in now.attachments;
    forall key
      ensures key in Orphans(now, bucket - KeysOf(db, {root})) - Orphans(db, bucket) <==>
                key in KeysOf(db, gone - {root})
    {
      OrphanSets(rows, bucket, gone, root, key);
      assert key in KeysOf(db, {root}) <==> exists a :: a in rows && rows[a].task == root && rows[a].key == key;
      assert key in KeysOf(db, gone - {root}) <==>
             exists a :: a in rows && rows[a].task in gone - {root} && rows[a].key == key;
      assert (exists a :: a in now.attachments && now.attachments[a].key == key) <==>
             exists a :: a in rows && rows[a].task !in gone && rows[a].key == key;
    }
  }

  // ---------------------------------------------------------------- the service

  class Service {
    var committed: Db
    var session: Db
    var bucket: set<StorageKey>
    /** The tasks some update of which named a label twice. */
    ghost var repeated: set<TaskId>

    ghost predicate Valid()
      reads this
    {
      && Consistent(committed) && Positioned(committed) && LabelHistories(committed, repeated)
      && RowsHaveObjects(committed.attachments, bucket)
    }

    /** Before any request: a store without tasks. */
    constructor (labels: map<LabelId, Label>, members: set<(ProjectId, string)>)
      requires UniqueNames(labels)
      ensures Valid() && repeated == {} && committed == Db(map[], labels, members, map[], map[], [], 0)
    {
      committed := Db(map[], labels, members, map[], map[], [], 0);
      session, bucket, repeated := committed, {}, {};
    }

    /** A store as other requests may have left it. */
    constructor Resume(db: Db, objects: set<StorageKey>, spoiled: set<TaskId>)
      requires Consistent(db) && Positioned(db) && LabelHistories(db, spoiled)
                 && RowsHaveObjects(db.attachments, objects)
      ensures Valid() && committed == db && bucket == objects && repeated == spoiled
    {
      committed, session, bucket, repeated := db, db, objects, spoiled;
    }

    method NextPosition(project: ProjectId, status: Value) returns (position: int)
      ensures IsNextPosition(session, project, status, position)
      ensures (forall x :: !Beside(session, x, project, status)) ==> position == 1
      ensures forall x :: Beside(session, x, project, status) ==> session.tasks[x].position <= position - 1
      ensures position == 1
           || exists x :: Beside(session, x, project, status) && session.tasks[x].position == position - 1
    {
      assert forall x :: Beside(session, x, project, status) <==> x in ColumnOf(session, project, status);
      var column := ColumnOf(session, project, status);
      if column == {} { return 1; }
      var t :| t in column;
      var rest, greatest := column - {t}, session.tasks[t].position;
      while rest != {}
        invariant rest <= column
        invariant forall x :: x in column - rest ==> session.tasks[x].position <= greatest
        invariant exists x :: x in column && session.tasks[x].position == greatest
        decreases |rest|
      {
        var x :| x in rest;
        if session.tasks[x].position > greatest { greatest := session.tasks[x].position; }
        rest := rest - {x};
      }
      position := greatest + 1;
    }

    /** The checks and the flush of a creation, in the session. */
    method StageCreate(t: TaskId, project: ProjectId, values: Values, parent: Option<TaskId>) returns (r: Outcome)
      modifies this`session
      ensures r == CreateRefusal(old(session), project, values, parent)
      ensures r.Done? ==>
                && t in session.tasks
                && IsNextPosition(old(session), project, values.status, session.tasks[t].position)
                && session == WithTask(old(session), t, project, values, parent, session.tasks[t].position)
                && (t !in old(session).tasks ==> CreatedOnly(old(session), session, t, project, values, parent))
    {
      if values.assignee.Some? && (project, values.assignee.value) !in session.members {
        return Refused(AssigneeNotMember);
      }
      if parent.Some? {
        if parent.value !in session.tasks || session.tasks[parent.value].project != project {
          return Refused(ForeignParent);
        }
      }
      var position := NextPosition(project, values.status);
      var task := Task(project, parent, values, [], position, values, session.clock);
      session := session.(tasks := session.tasks[t := task], clock := session.clock + 1);
      session := session.(log := session.log + [Entry(project, Some(t), Created)]);
      if t !in old(session).tasks { CreateEffect(old(session), t, project, values, parent, position); }
      r := Done;
    }

    /** `t` is the fresh identifier the new row gets. */
    method CreateTask(t: TaskId, project: ProjectId, values: Values, parent: Option<TaskId>) returns (r: Outcome)
      requires Valid() && t !in committed.tasks && NotNull(values)
      modifies this
      ensures Valid() && bucket == old(bucket) && repeated == old(repeated) - if r.Done? then {t} else {}
      ensures r == CreateRefusal(old(committed), project, values, parent)
      ensures r.Refused? ==> committed == old(committed)
      ensures r.Done? ==>
                && t in committed.tasks
                && IsNextPosition(old(committed), project, values.status, committed.tasks[t].position)
                && committed == WithTask(old(committed), t, project, values, parent, committed.tasks[t].position)
                && CreatedOnly(old(committed), committed, t, project, values, parent)
    {
      session := committed;
      r := StageCreate(t, project, values, parent);
      if r.Done? {
        CreateKeeps(committed, t, project, values, parent, session.tasks[t].position, repeated);
        CreateKeepsPositions(committed, t, project, values, parent, session.tasks[t].position);
        committed := session;
        repeated := repeated - {t};
      }
    }

    /** Each label is looked up in turn; the first bad one stops the request. */
    method ResolveLabels(project: ProjectId, ids: seq<LabelId>) returns (ok: bool)
      ensures ok <==> Resolvable(session.labels, project, ids)
    {
      for i := 0 to |ids|
        invariant forall j :: 0 <= j < i ==> ids[j] in session.labels && session.labels[ids[j]].project == project
      {
        if ids[i] !in session.labels || session.labels[ids[i]].project != project { return false; }
      }
      ok := true;
    }

    /** The fields' side of an update. */
    method StageFields(t: TaskId, updates: Updates) returns (changes: map<Field, Change>)
      requires t in session.tasks
      modifies this`session
      ensures var was := old(session); var x := was.tasks[t];
              && changes == Changes(x.values, updates)
              && session == was.(tasks := was.tasks[t := x.(values := Overwrite(x.values, updates))])
    {
      var x := session.tasks[t];
      var values;
      values, changes := AssignFields(x.values, updates);
      session := session.(tasks := session.tasks[t := x.(values := values)]);
    }

    /** The labels' side of an update: resolved one by one, then attached all together. */
    method StageLabels(t: TaskId, ids: seq<LabelId>) returns (resolved: bool, diff: Option<LabelChange>)
      requires t in session.tasks && forall l :: l in session.tasks[t].labels ==> l in session.labels
      modifies this`session
      ensures resolved <==> Resolvable(old(session).labels, old(session).tasks[t].project, ids)
      ensures !resolved ==> session == old(session)
      ensures resolved ==>
                var was := old(session);
                && diff == LabelDiff(was.labels, was.tasks[t].labels, ids)
                && session == was.(tasks := was.tasks[t := was.tasks[t].(labels := Distinct(ids))])
    {
      var x := session.tasks[t];
      diff := None;
      resolved := ResolveLabels(x.project, ids);
      if resolved {
        diff := LabelDiff(session.labels, x.labels, ids);
        session := session.(tasks := session.tasks[t := x.(labels := Distinct(ids))]);
      }
    }

    method StageEntry(project: ProjectId, t: TaskId, changes: map<Field, Change>, diff: Option<LabelChange>)
      modifies this`session
      ensures session == old(session).(log := Noted(old(session).log, project, t, changes, diff))
    {
      if changes != map[] || diff.Some? {
        session := session.(log := session.log + [Entry(project, Some(t), Updated(changes, diff))]);
      }
    }

    /** The session's side of an update. A foreign assignee is refused before anything is assigned,
        a foreign label after the fields are, and what the flush refuses after everything is. */
    method StageUpdate(t: TaskId, updates: Updates, labelIds: Option<seq<LabelId>>, once: bool) returns (r: Outcome)
      requires t in session.tasks && forall l :: l in session.tasks[t].labels ==> l in session.labels
      modifies this`session
      ensures r == UpdateRefusal(old(session), t, updates, labelIds, once)
      ensures r == Refused(AssigneeNotMember) ==> session == old(session)
      ensures r == Refused(ForeignLabel) ==>
                var was := old(session); var x := was.tasks[t];
                session == was.(tasks := was.tasks[t := x.(values := Overwrite(x.values, updates))])
      ensures r != Refused(AssigneeNotMember) && r != Refused(ForeignLabel) ==>
                LabelsKnown(old(session), t, labelIds) && session == Update(old(session), t, updates, labelIds)
    {
      if Assignee in updates && updates[Assignee].Some? {
        if (session.tasks[t].project, updates[Assignee].value) !in session.members {
          return Refused(AssigneeNotMember);
        }
      }
      var resolved := StageAssignments(t, updates, labelIds);
      if !resolved { return Refused(ForeignLabel); }
      r := Flush(t, labelIds, once);
    }

    /** Fields, labels and the log entry; an unknown or foreign label stops it after the fields. */
    method StageAssignments(t: TaskId, updates: Updates, labelIds: Option<seq<LabelId>>) returns (resolved: bool)
      requires t in session.tasks && forall l :: l in session.tasks[t].labels ==> l in session.labels
      modifies this`session
      ensures resolved <==> LabelsKnown(old(session), t, labelIds)
      ensures !resolved ==>
                var was := old(session); var x := was.tasks[t];
                session == was.(tasks := was.tasks[t := x.(values := Overwrite(x.values, updates))])
      ensures resolved ==> session == Update(old(session), t, updates, labelIds)
    {
      ghost var was := session;
      var x := session.tasks[t];
      var changes := StageFields(t, updates);
      ghost var y := session.tasks[t];
      var diff := None;
      resolved := true;
      if labelIds.Some? {
        resolved, diff := StageLabels(t, labelIds.value);
        if !resolved { return; }
      }
      AssignedTwice(was.tasks, t, y, session.tasks[t]);
      StageEntry(x.project, t, changes, diff);
    }

    /** Flushing the session meets the NOT NULL constraints and the link table's key. */
    method Flush(t: TaskId, labelIds: Option<seq<LabelId>>, once: bool) returns (r: Outcome)
      requires t in session.tasks
      ensures r == if !NotNull(session.tasks[t].values) then Refused(NullColumn)
                   else if Repeats(labelIds) && !once then Refused(RepeatedLabel) else Done
    {
      if !NotNull(session.tasks[t].values) { return Refused(NullColumn); }
      if labelIds.Some? {
        RepeatsIff(labelIds.value);
        if |Distinct(labelIds.value)| < |labelIds.value| && !once { return Refused(RepeatedLabel); }
      }
      r := Done;
    }

    /** A refused update may have assigned to the session already, but nothing of it is committed. */
    method UpdateTask(t: TaskId, updates: Updates, labelIds: Option<seq<LabelId>>, once: bool) returns (r: Outcome)
      requires Valid() && t in committed.tasks
      modifies this
      ensures Valid() && bucket == old(bucket)
      ensures r == UpdateRefusal(old(committed), t, updates, labelIds, once)
      ensures r.Refused? ==> committed == old(committed)
      ensures r.Refused? && r != Refused(AssigneeNotMember) ==>
                t in session.tasks && session.tasks[t].values == Overwrite(old(committed).tasks[t].values, updates)
      ensures r.Done? ==>
                && LabelsKnown(old(committed), t, labelIds) && committed == Update(old(committed), t, updates, labelIds)
                && UpdatedOnly(old(committed), committed, t, updates, labelIds)
      ensures repeated == if r.Done? && Repeats(labelIds) then old(repeated) + {t} else old(repeated)
    {
      assert TaskOk(committed, committed.tasks[t]);
      r := InSession(t, updates, labelIds, once);
      if r.Done? { Commit(t, updates, labelIds, once); }
    }

    method Commit(t: TaskId, updates: Updates, labelIds: Option<seq<LabelId>>, once: bool)
      requires Valid() && t in committed.tasks && UpdateRefusal(committed, t, updates, labelIds, once).Done?
      requires LabelsKnown(committed, t, labelIds) && session == Update(committed, t, updates, labelIds)
      modifies this`committed, this`repeated
      ensures Valid() && committed == session && UpdatedOnly(old(committed), committed, t, updates, labelIds)
      ensures repeated == if Repeats(labelIds) then old(repeated) + {t} else old(repeated)
    {
      UpdateIsSound(committed, t, updates, labelIds, once, repeated);
      committed := session;
      repeated := if Repeats(labelIds) then repeated + {t} else repeated;
    }

    method InSession(t: TaskId, updates: Updates, labelIds: Option<seq<LabelId>>, once: bool) returns (r: Outcome)
      requires t in committed.tasks && forall l :: l in committed.tasks[t].labels ==> l in committed.labels
      modifies this`session
      ensures r == UpdateRefusal(committed, t, updates, labelIds, once)
      ensures r != Refused(AssigneeNotMember) ==>
                t in session.tasks && session.tasks[t].values == Overwrite(committed.tasks[t].values, updates)
      ensures r.Done? ==> LabelsKnown(committed, t, labelIds) && session == Update(committed, t, updates, labelIds)
    {
      session := committed;
      r := StageUpdate(t, updates, labelIds, once);
    }

    /** The task and everything below it, found level by level. */
    method CollectSubtree(root: TaskId) returns (doomed: set<TaskId>)
      requires root in session.tasks && IsForest(session.tasks)
      ensures doomed == Subtree(session.tasks, root)
    {
      doomed := {root};
      var frontier := {root};
      while frontier != {}
        invariant root in doomed && frontier <= doomed <= session.tasks.Keys
        invariant forall x :: x in doomed ==> Descends(session.tasks, x, root)
        invariant forall x :: x in session.tasks && session.tasks[x].parent.Some? ==>
                    session.tasks[x].parent.value in doomed - frontier ==> x in doomed
        decreases session.tasks.Keys - doomed, frontier
      {
        var next: TaskId :| next in frontier;
        var children := set x | x in session.tasks && session.tasks[x].parent == Some(next) && x !in doomed;
        frontier := frontier - {next} + children;
        if children != {} {
          var c :| c in children;
          assert c in session.tasks.Keys - doomed && c !in session.tasks.Keys - (doomed + children);
        } else {
          assert doomed + children == doomed;
        }
        doomed := doomed + children;
      }
      forall x | x in session.tasks && Descends(session.tasks, x, root) ensures x in doomed {
        ClosedContains(session.tasks, doomed, x, root);
      }
    }

    /** One delete_object call per attachment of the task. */
    method DropObjects(root: TaskId)
      modifies this`bucket
      ensures bucket == old(bucket) - KeysOf(session, {root})
    {
      var rest := set a | a in session.attachments && session.attachments[a].task == root;
      ghost var all := rest;
      while rest != {}
        invariant rest <= all
        invariant bucket == old(bucket) - set a | a in all - rest :: session.attachments[a].key
        decreases |rest|
      {
        var a: AttachmentId :| a in rest;
        assert all - (rest - {a}) == (all - rest) + {a};
        bucket := bucket - {session.attachments[a].key};
        rest := rest - {a};
      }
      assert all - rest == all;
    }

    /** The task's own objects are deleted from the bucket first; then the rows go. Remaining rows
        keep their objects, and the newly orphaned objects are exactly those of strict descendants. */
    method DeleteTask(root: TaskId)
      requires Valid() && root in committed.tasks
      modifies this
      ensures Valid() && repeated == old(repeated) && committed == Delete(old(committed), root)
      ensures TookClosure(old(committed), committed, root)
      ensures bucket == old(bucket) - KeysOf(old(committed), {root})
      ensures Orphans(committed, bucket) - Orphans(old(committed), old(bucket))
           == KeysOf(old(committed), Subtree(old(committed).tasks, root) - {root})
    {
      session := committed;
      DropObjects(root);
      var doomed := CollectSubtree(root);
      session := session.(log := session.log + [Entry(session.tasks[root].project, None, Deleted)]);
      session := Without(session, doomed);
      DeleteKeeps(committed, root, repeated);
      DeleteKeepsPositions(committed, root);
      DeleteTakesClosure(committed, root);
      OrphansAreDescendants(committed, old(bucket), root);
      committed := session;
    }
  }

  lemma AssignedTwice(tasks: map<TaskId, Task>, t: TaskId, x: Task, y: Task)
    ensures tasks[t := x][t := y] == tasks[t := y] && tasks[t := x][t := x] == tasks[t := x]
  {
  }

  lemma {:induction false} RepeatsIff(ids: seq<LabelId>)
    ensures |Distinct(ids)| <= |ids| && (|Distinct(ids)| < |ids| <==> !NoDuplicates(ids))
  {
    if ids != [] {
      var shorter, last := ids[..|ids| - 1], ids[|ids| - 1];
      assert ids == shorter + [last];
      RepeatsIff(shorter);
      if !NoDuplicates(shorter) {
        var i, j :| 0 <= i < j < |shorter| && shorter[i] == shorter[j];
        assert ids[i] == ids[j];
      } else if last in shorter {
        var i :| 0 <= i < |shorter| && shorter[i] == last;
        assert ids[i] == ids[|ids| - 1];
      }
    }
  }

  /** The setattr loop under way: `rest` are the fields not yet assigned. */
  ghost predicate Assigned(was: Values, updates: Updates, rest: set<Field>, values: Values,
                           changes: map<Field, Change>) {
    && (forall f :: Get(values, f) == if f in updates && f !in rest then updates[f] else Get(was, f))
    && changes == map f | f in Changes(was, updates) && f !in rest :: Changes(was, updates)[f]
  }

  lemma PutGet(v: Values, f: Field, x: Value, g: Field)
    ensures Get(Put(v, f, x), g) == if g == f then x else Get(v, g)
  {
  }

  lemma AssignNext(was: Values, updates: Updates, rest: set<Field>, values: Values, changes: map<Field, Change>,
                   f: Field)
    requires Assigned(was, updates, rest, values, changes) && f in rest && f in updates
    ensures Get(values, f) == Get(was, f)
    ensures Assigned(was, updates, rest - {f}, Put(values, f, updates[f]),
                     if Get(values, f) != updates[f] then changes[f := Change(Str(Get(values, f)), Str(updates[f]))]
                         else changes)
  {
    forall g {:trigger Get(Put(values, f, updates[f]), g)}
      ensures Get(Put(values, f, updates[f]), g) == if g in updates && g !in rest - {f} then updates[g] else Get(was, g)
    {
      PutGet(values, f, updates[f], g);
    }
  }

  /** The setattr loop: fields are assigned one after the other and the differences collected. */
  method AssignFields(was: Values, updates: Updates) returns (values: Values, changes: map<Field, Change>)
    ensures values == Overwrite(was, updates) && changes == Changes(was, updates)
  {
    var rest := updates.Keys;
    values, changes := was, map[];
    while rest != {}
      invariant rest <= updates.Keys && Assigned(was, updates, rest, values, changes)
      decreases |rest|
    {
      var field :| field in rest;
      AssignNext(was, updates, rest, values, changes, field);
      var previous := Get(values, field);
      if previous != updates[field] {
        changes := changes[field := Change(Str(previous), Str(updates[field]))];
      }
      values := Put(values, field, updates[field]);
      rest := rest - {field};
    }
    SameValues(values, Overwrite(was, updates));
  }

  lemma {:induction false} ClosedContains(tasks: map<TaskId, Task>, closed: set<TaskId>, x: TaskId, root: TaskId)
    requires root in closed && Descends(tasks, x, root)
    requires forall y :: y in tasks && tasks[y].parent.Some? && tasks[y].parent.value in closed ==> y in closed
    ensures x in closed
    decreases if x in tasks then tasks[x].born else 0
  {
    if x != root { ClosedContains(tasks, closed, tasks[x].parent.value, root); }
  }

  lemma SameValues(v: Values, w: Values)
    requires forall f :: Get(v, f) == Get(w, f)
    ensures v == w
  {
    assert Get(v, Title) == Get(w, Title) && Get(v, Description) == Get(w, Description);
    assert Get(v, Status) == Get(w, Status) && Get(v, Priority) == Get(w, Priority);
    assert Get(v, Assignee) == Get(w, Assignee) && Get(v, DueDate) == Get(w, DueDate);
  }
}
