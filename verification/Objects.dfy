/** Attachment rows and the objects they point to, in two stores that cannot commit together
    (backend/app/services/attachment_service.py:35-127, backend/app/services/task_service.py:181-201).
    Requests interleave at every store operation; one that crashes simply takes no further step,
    so what holds in every reachable state holds after a crash at any point. */
module Objects {
  import opened TaskData

  type RequestId = nat

  /** What a request in progress has done so far: an upload has put its object, an attachment
      delete has committed the row's removal, a task delete has listed its task's attachments and
      dropped the objects of the first `dropped` of them. */
  datatype Request =
    | Uploaded(task: TaskId, key: StorageKey)
    | RowDeleted(key: StorageKey)
    | Dropping(task: TaskId, keys: seq<StorageKey>, dropped: nat)

  datatype State = State(rows: map<AttachmentId, Attachment>, bucket: set<StorageKey>, used: set<StorageKey>,
                         active: map<RequestId, Request>)

  datatype Action =
    | PutObject(q: RequestId, task: TaskId, key: StorageKey)
    | CommitRow(q: RequestId, row: AttachmentId, taskExists: bool)
    | CommitRowDelete(q: RequestId, row: AttachmentId)
    | DropObject(q: RequestId)
    | ListAttachments(q: RequestId, task: TaskId, keys: seq<StorageKey>)
    | DropListed(q: RequestId)
    | CommitTaskDelete(q: RequestId, subtree: set<TaskId>)

  const INIT := State(map[], {}, {}, map[])

  ghost predicate Enabled(s: State, a: Action) {
    match a
    // build_storage_key draws a fresh UUID
    case PutObject(q, _, key) => q !in s.active && key !in s.used
    case CommitRow(q, row, _) => q in s.active && s.active[q].Uploaded? && row !in s.rows
    case CommitRowDelete(q, row) => q !in s.active && row in s.rows
    case DropObject(q) => q in s.active && s.active[q].RowDeleted?
    case ListAttachments(q, task, keys) =>
      q !in s.active && forall key :: key in keys <==> exists r :: r in s.rows && s.rows[r] == Attachment(task, key)
    case DropListed(q) => q in s.active && s.active[q].Dropping? && s.active[q].dropped < |s.active[q].keys|
    case CommitTaskDelete(q, subtree) =>
      && q in s.active && s.active[q].Dropping? && s.active[q].dropped == |s.active[q].keys|
      && s.active[q].task in subtree
  }

  function Do(s: State, a: Action): State
    requires Enabled(s, a)
  {
    match a
    case PutObject(q, task, key) =>
      s.(bucket := s.bucket + {key}, used := s.used + {key}, active := s.active[q := Uploaded(task, key)])
    case CommitRow(q, row, taskExists) =>
      // the foreign key rejects the row if the task is gone by now
      s.(active := s.active - {q},
         rows := if taskExists then s.rows[row := Attachment(s.active[q].task, s.active[q].key)] else s.rows)
    case CommitRowDelete(q, row) =>
      s.(rows := s.rows - {row}, active := s.active[q := RowDeleted(s.rows[row].key)])
    case DropObject(q) => s.(bucket := s.bucket - {s.active[q].key}, active := s.active - {q})
    case ListAttachments(q, task, keys) => s.(active := s.active[q := Dropping(task, keys, 0)])
    case DropListed(q) =>
      var d := s.active[q];
      s.(bucket := s.bucket - {d.keys[d.dropped]}, active := s.active[q := d.(dropped := d.dropped + 1)])
    case CommitTaskDelete(q, subtree) =>
      s.(rows := map r | r in s.rows && s.rows[r].task !in subtree :: s.rows[r], active := s.active - {q})
  }

  ghost predicate IsRun(run: seq<Action>)
    decreases |run|, 1
  {
    run == [] || (IsRun(run[..|run| - 1]) && Enabled(After(run[..|run| - 1]), run[|run| - 1]))
  }

  ghost function After(run: seq<Action>): State
    requires IsRun(run)
    decreases |run|, 2
  {
    if run == [] then INIT else Do(After(run[..|run| - 1]), run[|run| - 1])
  }

  // ---------------------------------------------------------------- what every interleaving keeps

  ghost predicate IsRowKey(s: State, key: StorageKey) {
    exists r :: r in s.rows && s.rows[r].key == key
  }

  /** An unfinished task delete has dropped this key. */
  ghost predicate DroppedBy(s: State, q: RequestId, key: StorageKey) {
    && q in s.active && s.active[q].Dropping? && s.active[q].dropped <= |s.active[q].keys|
    && key in s.active[q].keys[..s.active[q].dropped]
  }

  ghost predicate KeysAreFresh(s: State) {
    && s.bucket <= s.used
    && (forall r :: r in s.rows ==> s.rows[r].key in s.used)
    && (forall r1, r2 :: r1 in s.rows && r2 in s.rows && s.rows[r1].key == s.rows[r2].key ==> r1 == r2)
  }

  ghost predicate RequestOk(s: State, q: RequestId, me: Request) {
    match me
    case Uploaded(_, key) =>
      && key in s.bucket && !IsRowKey(s, key)
      && forall p :: p in s.active && p != q ==> !Mentions(s.active[p], key)
    case RowDeleted(key) => key in s.used && !IsRowKey(s, key)
    case Dropping(task, keys, dropped) =>
      && dropped <= |keys|
      && (forall key :: key in keys ==> key in s.used)
      && (forall r :: r in s.rows && s.rows[r].key in keys ==> s.rows[r].task == task)
      && (forall i :: 0 <= i < dropped ==> keys[i] !in s.bucket)
  }

  predicate Mentions(me: Request, key: StorageKey) {
    match me
    case Uploaded(_, k) => k == key
    case RowDeleted(k) => k == key
    case Dropping(_, keys, _) => key in keys
  }

  /** A row without its object is a row whose object an unfinished task delete has dropped. */
  ghost predicate MissingExplained(s: State) {
    forall r :: r in s.rows && s.rows[r].key !in s.bucket ==> exists q :: DroppedBy(s, q, s.rows[r].key)
  }

  ghost predicate Inv(s: State) {
    KeysAreFresh(s) && MissingExplained(s) && forall q :: q in s.active ==> RequestOk(s, q, s.active[q])
  }

  lemma RowsAfter(s: State, a: Action, r: AttachmentId)
    requires Inv(s) && Enabled(s, a) && r in Do(s, a).rows
    ensures (r in s.rows && Do(s, a).rows[r] == s.rows[r])
         || (a.CommitRow? && r == a.row && Do(s, a).rows[r] == Attachment(s.active[a.q].task, s.active[a.q].key))
  {
  }

  lemma KeysStep(s: State, a: Action)
    requires Inv(s) && Enabled(s, a)
    ensures KeysAreFresh(Do(s, a))
  {
    if a.CommitRow? { assert RequestOk(s, a.q, s.active[a.q]); }
    if a.DropObject? { assert RequestOk(s, a.q, s.active[a.q]); }
  }

  lemma MissingStep(s: State, a: Action, r: AttachmentId)
    requires Inv(s) && Enabled(s, a) && r in Do(s, a).rows && Do(s, a).rows[r].key !in Do(s, a).bucket
    ensures exists q :: DroppedBy(Do(s, a), q, Do(s, a).rows[r].key)
  {
    var t := Do(s, a);
    var key := t.rows[r].key;
    RowsAfter(s, a, r);
    if a.q in s.active { assert RequestOk(s, a.q, s.active[a.q]); }
    if key in s.bucket {
      assert a.DropListed?;
      assert t.active[a.q].keys[..t.active[a.q].dropped][s.active[a.q].dropped] == key;
      assert DroppedBy(t, a.q, key);
    } else {
      var q :| DroppedBy(s, q, key);
      if q == a.q && a.DropListed? {
        assert s.active[q].keys[..s.active[q].dropped] <= t.active[q].keys[..t.active[q].dropped];
      }
      assert DroppedBy(t, q, key);
    }
  }

  lemma OwnStep(s: State, a: Action)
    requires Inv(s) && Enabled(s, a) && a.q in Do(s, a).active
    ensures RequestOk(Do(s, a), a.q, Do(s, a).active[a.q])
  {
    if a.q in s.active { assert RequestOk(s, a.q, s.active[a.q]); }
    if a.PutObject? {
      forall p | p in s.active ensures !Mentions(s.active[p], a.key) { assert RequestOk(s, p, s.active[p]); }
    }
  }

  lemma OtherStep(s: State, a: Action, q: RequestId)
    requires Inv(s) && Enabled(s, a) && q in s.active && q != a.q
    ensures RequestOk(Do(s, a), q, s.active[q])
  {
    assert RequestOk(s, q, s.active[q]);
    if a.q in s.active { assert RequestOk(s, a.q, s.active[a.q]); }
  }

  lemma InvStep(s: State, a: Action)
    requires Inv(s) && Enabled(s, a)
    ensures Inv(Do(s, a))
  {
    var t := Do(s, a);
    KeysStep(s, a);
    forall r | r in t.rows && t.rows[r].key !in t.bucket ensures exists q :: DroppedBy(t, q, t.rows[r].key) {
      MissingStep(s, a, r);
    }
    forall q | q in t.active ensures RequestOk(t, q, t.active[q]) {
      if q == a.q { OwnStep(s, a); } else { OtherStep(s, a, q); }
    }
  }

  lemma {:induction false} InvHolds(run: seq<Action>)
    requires IsRun(run)
    ensures Inv(After(run))
  {
    if run != [] {
      InvHolds(run[..|run| - 1]);
      InvStep(After(run[..|run| - 1]), run[|run| - 1]);
    }
  }

  // ---------------------------------------------------------------- consistency after a crash

  /** With any interleaving of uploads and attachment deletes, crashed at any step, a row never
      points to a missing object. */
  lemma {:induction false} UploadsAndDeletesAreSafe(run: seq<Action>)
    requires IsRun(run) && forall i :: 0 <= i < |run| ==> !run[i].ListAttachments?
    ensures RowsHaveObjects(After(run).rows, After(run).bucket)
  {
    InvHolds(run);
    forall q | q in After(run).active ensures !After(run).active[q].Dropping? {
      NoTaskDeletes(run, q);
    }
  }

  lemma {:induction false} NoTaskDeletes(run: seq<Action>, q: RequestId)
    requires IsRun(run) && forall i :: 0 <= i < |run| ==> !run[i].ListAttachments?
    requires q in After(run).active
    ensures !After(run).active[q].Dropping?
  {
    var before := run[..|run| - 1];
    assert !run[|run| - 1].ListAttachments?;
    if q in After(before).active { NoTaskDeletes(before, q); }
    if run[|run| - 1].q in After(before).active { NoTaskDeletes(before, run[|run| - 1].q); }
  }

  /** With task deletes in play: rows all have their objects if and only if no unfinished task
      delete has already dropped the object of a row that is still there. */
  lemma SafeIffNothingDroppedEarly(run: seq<Action>)
    requires IsRun(run)
    ensures RowsHaveObjects(After(run).rows, After(run).bucket) <==>
            forall q, r :: r in After(run).rows ==> !DroppedBy(After(run), q, After(run).rows[r].key)
  {
    InvHolds(run);
    var s := After(run);
    forall q, r | r in s.rows && DroppedBy(s, q, s.rows[r].key) ensures s.rows[r].key !in s.bucket {
      assert RequestOk(s, q, s.active[q]);
    }
  }

  /** And then it is always a row of the very task being deleted: other tasks' files are safe. */
  lemma OnlyTheDeletedTaskIsHurt(run: seq<Action>, r: AttachmentId) returns (q: RequestId)
    requires IsRun(run) && r in After(run).rows && After(run).rows[r].key !in After(run).bucket
    ensures q in After(run).active && After(run).active[q].Dropping?
    ensures After(run).active[q].task == After(run).rows[r].task && 0 < After(run).active[q].dropped
  {
    InvHolds(run);
    var s := After(run);
    q :| DroppedBy(s, q, s.rows[r].key);
    assert RequestOk(s, q, s.active[q]);
  }

  // ---------------------------------------------------------------- what a finished request has done

  lemma Recorded(run: seq<Action>, a: Action)
    requires IsRun(run + [a])
    ensures IsRun(run) && Enabled(After(run), a) && After(run + [a]) == Do(After(run), a)
  {
    assert (run + [a])[..|run + [a]| - 1] == run;
  }

  /** A request in progress stays as it is until its own next step. */
  lemma {:induction false} Undisturbed(run: seq<Action>, middle: seq<Action>, q: RequestId)
    requires IsRun(run + middle) && forall i :: 0 <= i < |middle| ==> middle[i].q != q
    ensures IsRun(run)
    ensures q in After(run).active ==>
              q in After(run + middle).active && After(run + middle).active[q] == After(run).active[q]
  {
    if middle == [] {
      assert run + middle == run;
    } else {
      var before := middle[..|middle| - 1];
      assert run + middle == run + before + [middle[|middle| - 1]];
      Recorded(run + before, middle[|middle| - 1]);
      Undisturbed(run, before, q);
    }
  }

  lemma UploadEffect(s: State, q: RequestId, task: TaskId, key: StorageKey, row: AttachmentId, taskExists: bool)
    requires Inv(s) && Enabled(s, CommitRow(q, row, taskExists)) && s.active[q] == Uploaded(task, key)
    ensures var t := Do(s, CommitRow(q, row, taskExists));
            && key in t.bucket && q !in t.active
            && t.rows == if taskExists then s.rows[row := Attachment(task, key)] else s.rows
  {
    assert RequestOk(s, q, s.active[q]);
  }

  lemma DeleteEffect(s: State, q: RequestId, key: StorageKey)
    requires Inv(s) && Enabled(s, DropObject(q)) && s.active[q] == RowDeleted(key)
    ensures var t := Do(s, DropObject(q)); key !in t.bucket && !IsRowKey(t, key) && q !in t.active && t.rows == s.rows
  {
    assert RequestOk(s, q, s.active[q]);
  }

  lemma TaskDeleteEffect(s: State, q: RequestId, subtree: set<TaskId>)
    requires Inv(s) && Enabled(s, CommitTaskDelete(q, subtree))
    ensures var t := Do(s, CommitTaskDelete(q, subtree));
            && (forall key :: key in s.active[q].keys ==> key !in t.bucket)
            && (forall r :: r in t.rows <==> r in s.rows && s.rows[r].task !in subtree)
            && (forall r :: r in t.rows ==> t.rows[r] == s.rows[r]) && t.bucket == s.bucket
  {
    assert RequestOk(s, q, s.active[q]);
    forall key | key in s.active[q].keys ensures key !in s.bucket {
      var i :| 0 <= i < |s.active[q].keys| && s.active[q].keys[i] == key;
    }
  }

  /** An upload that finishes has its object in the bucket and, if its task is still there, the row it
      asked for; whatever other requests did between its two steps. */
  lemma UploadCompletes(run: seq<Action>, middle: seq<Action>, q: RequestId, task: TaskId, key: StorageKey,
                        row: AttachmentId, taskExists: bool) returns (was: seq<Action>)
    requires IsRun(run + [PutObject(q, task, key)] + middle + [CommitRow(q, row, taskExists)])
    requires forall i :: 0 <= i < |middle| ==> middle[i].q != q
    ensures was == run + [PutObject(q, task, key)] + middle && IsRun(was)
    ensures var t := After(was + [CommitRow(q, row, taskExists)]);
            && key in t.bucket && q !in t.active
            && t.rows == if taskExists then After(was).rows[row := Attachment(task, key)] else After(was).rows
  {
    var put := run + [PutObject(q, task, key)];
    was := put + middle;
    Recorded(was, CommitRow(q, row, taskExists));
    Undisturbed(put, middle, q);
    Recorded(run, PutObject(q, task, key));
    InvHolds(was);
    UploadEffect(After(was), q, task, key, row, taskExists);
  }

  /** An attachment delete that finishes has removed the row and the object it pointed to. */
  lemma DeleteCompletes(run: seq<Action>, middle: seq<Action>, q: RequestId, row: AttachmentId)
    requires IsRun(run + [CommitRowDelete(q, row)] + middle + [DropObject(q)])
    requires forall i :: 0 <= i < |middle| ==> middle[i].q != q
    ensures IsRun(run) && row in After(run).rows
    ensures IsRun(run + [CommitRowDelete(q, row)]) && row !in After(run + [CommitRowDelete(q, row)]).rows
    ensures var key, t := After(run).rows[row].key, After(run + [CommitRowDelete(q, row)] + middle + [DropObject(q)]);
            key !in t.bucket && !IsRowKey(t, key) && q !in t.active
  {
    var deleted := run + [CommitRowDelete(q, row)];
    Recorded(deleted + middle, DropObject(q));
    Undisturbed(deleted, middle, q);
    Recorded(run, CommitRowDelete(q, row));
    InvHolds(deleted + middle);
    DeleteEffect(After(deleted + middle), q, After(run).rows[row].key);
  }

  lemma {:induction false} KeepsDropping(run: seq<Action>, middle: seq<Action>, q: RequestId, task: TaskId,
                                         keys: seq<StorageKey>)
    requires IsRun(run + [ListAttachments(q, task, keys)] + middle)
    requires forall i :: 0 <= i < |middle| ==> middle[i].q != q || middle[i].DropListed?
    ensures var s := After(run + [ListAttachments(q, task, keys)] + middle);
            q in s.active && s.active[q].Dropping? && s.active[q].task == task && s.active[q].keys == keys
  {
    var listed := run + [ListAttachments(q, task, keys)];
    if middle == [] {
      assert listed + middle == listed;
      Recorded(run, ListAttachments(q, task, keys));
    } else {
      var before, last := middle[..|middle| - 1], middle[|middle| - 1];
      assert listed + middle == listed + before + [last];
      Recorded(listed + before, last);
      KeepsDropping(run, before, q, task, keys);
    }
  }

  /** A task delete that finishes has removed all objects it listed, and exactly the rows of the subtree. */
  lemma TaskDeleteCompletes(run: seq<Action>, middle: seq<Action>, q: RequestId, task: TaskId, keys: seq<StorageKey>,
                            subtree: set<TaskId>) returns (was: seq<Action>)
    requires IsRun(run + [ListAttachments(q, task, keys)] + middle + [CommitTaskDelete(q, subtree)])
    requires forall i :: 0 <= i < |middle| ==> middle[i].q != q || middle[i].DropListed?
    ensures was == run + [ListAttachments(q, task, keys)] + middle && IsRun(was) && task in subtree
    ensures var t := After(was + [CommitTaskDelete(q, subtree)]);
            && (forall key :: key in keys ==> key !in t.bucket)
            && (forall r :: r in t.rows <==> r in After(was).rows && After(was).rows[r].task !in subtree)
            && (forall r :: r in t.rows ==> t.rows[r] == After(was).rows[r]) && t.bucket == After(was).bucket
  {
    was := run + [ListAttachments(q, task, keys)] + middle;
    Recorded(was, CommitTaskDelete(q, subtree));
    KeepsDropping(run, middle, q, task, keys);
    InvHolds(was);
    TaskDeleteEffect(After(was), q, subtree);
  }

  lemma Extend(run: seq<Action>, a: Action) returns (longer: seq<Action>)
    requires IsRun(run) && Enabled(After(run), a)
    ensures IsRun(longer) && After(longer) == Do(After(run), a)
  {
    longer := run + [a];
    assert longer[..|longer| - 1] == run;
  }

  /** A task delete that crashes between the bucket and the commit leaves a row without its object. */
  lemma CrashedTaskDelete() returns (run: seq<Action>)
    ensures IsRun(run) && !RowsHaveObjects(After(run).rows, After(run).bucket)
  {
    run := Extend([], PutObject(0, 5, 77));
    run := Extend(run, CommitRow(0, 1, true));
    var s := After(run);
    assert s.rows == map[1 := Attachment(5, 77)];
    run := Extend(run, ListAttachments(0, 5, [77]));
    run := Extend(run, DropListed(0));
    assert 1 in After(run).rows;
  }
}
