/** Walking the task forest by its listings (backend/app/crud/task.py:61-110). */
module Listing {
  import opened Ids
  import opened TaskData
  import opened TaskService

  // ---------------------------------------------------------------- roots and subtasks

  /** What the list endpoints return, in whatever order the database settles ties: for None the
      project's top-level tasks, for a task its direct subtasks. */
  ghost predicate IsListing(tasks: map<TaskId, Task>, project: ProjectId, listing: Option<TaskId> -> seq<TaskId>) {
    forall p :: NoDuplicates(listing(p)) && forall t ::
      t in listing(p) <==> t in tasks && tasks[t].parent == p && (p == None ==> tasks[t].project == project)
  }

  ghost predicate OlderThan(tasks: map<TaskId, Task>, b: int, xs: seq<TaskId>, clock: nat) {
    forall x :: x in xs ==> x in tasks && b < tasks[x].born < clock
  }

  /** A task followed by everything its recursive subtask listings bring up. */
  ghost function Visit(tasks: map<TaskId, Task>, project: ProjectId, listing: Option<TaskId> -> seq<TaskId>,
                       t: TaskId, clock: nat): seq<TaskId>
    requires IsForest(tasks) && IsListing(tasks, project, listing)
    requires (forall x :: x in tasks ==> tasks[x].born < clock) && t in tasks
    decreases clock - tasks[t].born, 1, 0
  {
    [t] + VisitAll(tasks, project, listing, listing(Some(t)), tasks[t].born, clock)
  }

  ghost function VisitAll(tasks: map<TaskId, Task>, project: ProjectId, listing: Option<TaskId> -> seq<TaskId>,
                          xs: seq<TaskId>, b: int, clock: nat): seq<TaskId>
    requires IsForest(tasks) && IsListing(tasks, project, listing) && b >= -1
    requires (forall x :: x in tasks ==> tasks[x].born < clock) && OlderThan(tasks, b, xs, clock)
    decreases clock - b, 0, |xs|
  {
    if xs == [] then []
    else VisitAll(tasks, project, listing, xs[..|xs| - 1], b, clock)
         + Visit(tasks, project, listing, xs[|xs| - 1], clock)
  }

  lemma {:induction false} DescendantsAreYounger(tasks: map<TaskId, Task>, x: TaskId, t: TaskId)
    requires x in tasks && t in tasks && Descends(tasks, x, t)
    ensures x == t || tasks[x].born > tasks[t].born
    decreases tasks[x].born
  {
    if x != t { DescendantsAreYounger(tasks, tasks[x].parent.value, t); }
  }

  lemma {:induction false} DescentIsTransitive(tasks: map<TaskId, Task>, x: TaskId, y: TaskId, z: TaskId)
    requires x in tasks && Descends(tasks, x, y) && Descends(tasks, y, z)
    ensures Descends(tasks, x, z)
    decreases tasks[x].born
  {
    if x != y { DescentIsTransitive(tasks, tasks[x].parent.value, y, z); }
  }

  /** A strict descendant comes through one of the direct subtasks. */
  lemma {:induction false} ThroughChild(tasks: map<TaskId, Task>, x: TaskId, t: TaskId) returns (c: TaskId)
    requires IsForest(tasks) && x in tasks && t in tasks && x != t && Descends(tasks, x, t)
    ensures c in tasks && tasks[c].parent == Some(t) && Descends(tasks, x, c)
    decreases tasks[x].born
  {
    var p := tasks[x].parent.value;
    if p == t { c := x; } else { c := ThroughChild(tasks, p, t); }
  }

  /** The ancestors of a task form a chain. */
  lemma {:induction false} AncestorsChain(tasks: map<TaskId, Task>, x: TaskId, y: TaskId, z: TaskId)
    requires x in tasks && Descends(tasks, x, y) && Descends(tasks, x, z)
    ensures Descends(tasks, y, z) || Descends(tasks, z, y)
    decreases tasks[x].born
  {
    if x != y && x != z { AncestorsChain(tasks, tasks[x].parent.value, y, z); }
  }

  lemma SiblingsDisjoint(tasks: map<TaskId, Task>, x: TaskId, y: TaskId, z: TaskId)
    requires IsForest(tasks) && x in tasks && y in tasks && z in tasks
    requires y != z && tasks[y].parent == tasks[z].parent && Descends(tasks, x, y)
    ensures !Descends(tasks, x, z)
  {
    if Descends(tasks, x, z) {
      AncestorsChain(tasks, x, y, z);
      var parent := tasks[y].parent;
      if Descends(tasks, y, z) {
        DescendantsAreYounger(tasks, parent.value, z);
      } else {
        DescendantsAreYounger(tasks, parent.value, y);
      }
    }
  }

  ghost predicate Below(tasks: map<TaskId, Task>, x: TaskId, xs: seq<TaskId>) {
    exists y :: y in xs && Descends(tasks, x, y)
  }

  lemma {:induction false} VisitCounts(tasks: map<TaskId, Task>, project: ProjectId,
      listing: Option<TaskId> -> seq<TaskId>, t: TaskId, clock: nat, x: TaskId)
    requires IsForest(tasks) && IsListing(tasks, project, listing)
    requires (forall y :: y in tasks ==> tasks[y].born < clock) && t in tasks && x in tasks
    ensures multiset(Visit(tasks, project, listing, t, clock))[x] == if Descends(tasks, x, t) then 1 else 0
    decreases clock - tasks[t].born, 1, 0
  {
    var children := listing(Some(t));
    VisitAllCounts(tasks, project, listing, children, tasks[t].born, clock, Some(t), x);
    if x == t {
      forall y | y in children ensures !Descends(tasks, x, y) {
        if Descends(tasks, x, y) { DescendantsAreYounger(tasks, x, y); }
      }
    } else if Descends(tasks, x, t) {
      var c := ThroughChild(tasks, x, t);
      assert c in children;
    } else {
      forall y | y in children ensures !Descends(tasks, x, y) {
        if Descends(tasks, x, y) { DescentIsTransitive(tasks, x, y, t); }
      }
    }
  }

  lemma {:induction false} VisitAllCounts(tasks: map<TaskId, Task>, project: ProjectId,
      listing: Option<TaskId> -> seq<TaskId>, xs: seq<TaskId>, b: int, clock: nat, parent: Option<TaskId>, x: TaskId)
    requires IsForest(tasks) && IsListing(tasks, project, listing) && b >= -1
    requires (forall y :: y in tasks ==> tasks[y].born < clock) && OlderThan(tasks, b, xs, clock) && x in tasks
    requires NoDuplicates(xs) && forall y :: y in xs ==> tasks[y].parent == parent
    ensures multiset(VisitAll(tasks, project, listing, xs, b, clock))[x] == if Below(tasks, x, xs) then 1 else 0
    decreases clock - b, 0, |xs|
  {
    if xs != [] {
      var shorter, last := xs[..|xs| - 1], xs[|xs| - 1];
      assert xs == shorter + [last] && last !in shorter;
      VisitAllCounts(tasks, project, listing, shorter, b, clock, parent, x);
      VisitCounts(tasks, project, listing, last, clock, x);
      if Descends(tasks, x, last) {
        forall y | y in shorter ensures !Descends(tasks, x, y) { SiblingsDisjoint(tasks, x, last, y); }
        assert last in xs;
      }
    }
  }

  lemma {:induction false} HasRoot(tasks: map<TaskId, Task>, x: TaskId) returns (r: TaskId)
    requires IsForest(tasks) && x in tasks
    ensures r in tasks && tasks[r].parent.None? && tasks[r].project == tasks[x].project && Descends(tasks, x, r)
    decreases tasks[x].born
  {
    if tasks[x].parent.None? { r := x; } else { r := HasRoot(tasks, tasks[x].parent.value); }
  }

  lemma {:induction false} SameProject(tasks: map<TaskId, Task>, x: TaskId, t: TaskId)
    requires IsForest(tasks) && x in tasks && t in tasks && Descends(tasks, x, t)
    ensures tasks[x].project == tasks[t].project
    decreases tasks[x].born
  {
    if x != t { SameProject(tasks, tasks[x].parent.value, t); }
  }

  /** Listing a project's top-level tasks and then subtasks of subtasks visits every task of the
      project exactly once, and no other task. */
  lemma EveryTaskOnce(tasks: map<TaskId, Task>, project: ProjectId, listing: Option<TaskId> -> seq<TaskId>,
                      clock: nat, x: TaskId)
    requires IsForest(tasks) && IsListing(tasks, project, listing)
    requires (forall y :: y in tasks ==> tasks[y].born < clock) && x in tasks
    ensures multiset(VisitAll(tasks, project, listing, listing(None), -1, clock))[x]
         == if tasks[x].project == project then 1 else 0
  {
    var roots := listing(None);
    VisitAllCounts(tasks, project, listing, roots, -1, clock, None, x);
    if tasks[x].project == project {
      var r := HasRoot(tasks, x);
      assert r in roots;
    } else {
      forall y | y in roots ensures !Descends(tasks, x, y) {
        if Descends(tasks, x, y) { SameProject(tasks, x, y); }
      }
    }
  }
}
