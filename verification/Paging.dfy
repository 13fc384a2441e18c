/** Paginated lists: the filtered and sorted task list (backend/app/crud/task.py:61-103), the activity
    feed (backend/app/crud/activity.py:30-60), and the panel's loop that asks for one page of it after
    the other (frontend/src/components/ActivityPanel.tsx:18-26). */
module Paging {
  import opened Ids
  import opened TaskData

  /** What pages are made of: the identifiers of tasks, or of activity entries. */
  type Item = nat

  // ---------------------------------------------------------------- what a request selects

  /** The conditions of the query; `title` stands for the ILIKE match on the search text. */
  datatype Query = Query(project: ProjectId, status: Value, priority: Value, assignee: Value,
                         title: Option<string -> bool>, labelled: Option<LabelId>)

  predicate Meets(x: Task, q: Query) {
    && x.project == q.project && x.parent.None?
    && (q.status.Some? ==> x.values.status == q.status)
    && (q.priority.Some? ==> x.values.priority == q.priority)
    && (q.assignee.Some? ==> x.values.assignee == q.assignee)
    && (q.title.Some? && x.values.title.Some? ==> q.title.value(x.values.title.value))
  }

  /** A row of the link table; its two columns are its primary key. */
  datatype Link = Link(task: TaskId, labelled: LabelId)

  ghost function Links(tasks: map<TaskId, Task>): set<Link> {
    set t, l | t in tasks && l in tasks[t].labels :: Link(t, l)
  }

  /** A row of the selection: a task, and with a label filter the link it was joined to. */
  datatype Row = Row(task: TaskId, link: Option<Link>)

  ghost predicate Selected(tasks: map<TaskId, Task>, q: Query, r: Row) {
    && r.task in tasks && Meets(tasks[r.task], q)
    && match q.labelled
       case None => r.link == None
       case Some(l) =>
         && r.link.Some? && r.link.value in Links(tasks)
         && r.link.value.task == r.task && r.link.value.labelled == l
  }

  ghost predicate Matching(tasks: map<TaskId, Task>, q: Query, t: TaskId) {
    t in tasks && Meets(tasks[t], q) && (q.labelled.Some? ==> q.labelled.value in tasks[t].labels)
  }

  ghost function MatchingTasks(tasks: map<TaskId, Task>, q: Query): set<TaskId> {
    set t | t in tasks && Matching(tasks, q, t)
  }

  /** What the count query counts: the distinct tasks among the selected rows. */
  ghost function CountedTasks(tasks: map<TaskId, Task>, q: Query): set<TaskId> {
    set t | t in tasks && exists link :: Selected(tasks, q, Row(t, link))
  }

  lemma CountedAreMatching(tasks: map<TaskId, Task>, q: Query)
    ensures CountedTasks(tasks, q) == MatchingTasks(tasks, q)
  {
    forall t | t in tasks ensures Matching(tasks, q, t) <==> exists link :: Selected(tasks, q, Row(t, link)) {
      if Matching(tasks, q, t) { assert Selected(tasks, q, RowOf(q, t)); }
    }
  }

  /** A query by one criterion alone. */
  function Only(project: ProjectId): Query {
    Query(project, None, None, None, None, None)
  }

  /** What each criterion means, on its own column, and that a query asks for all of its criteria. */
  lemma EachFilterMeans(tasks: map<TaskId, Task>, q: Query, t: TaskId)
    requires t in tasks
    ensures Matching(tasks, Only(q.project), t) <==> tasks[t].project == q.project && tasks[t].parent == None
    ensures q.status != None ==>
              (Matching(tasks, Only(q.project).(status := q.status), t) <==>
                 Matching(tasks, Only(q.project), t) && Get(tasks[t].values, Status) == q.status)
    ensures q.priority != None ==>
              (Matching(tasks, Only(q.project).(priority := q.priority), t) <==>
                 Matching(tasks, Only(q.project), t) && Get(tasks[t].values, Priority) == q.priority)
    ensures q.assignee != None ==>
              (Matching(tasks, Only(q.project).(assignee := q.assignee), t) <==>
                 Matching(tasks, Only(q.project), t) && Get(tasks[t].values, Assignee) == q.assignee)
    ensures q.title.Some? && Get(tasks[t].values, Title) != None ==>
              (Matching(tasks, Only(q.project).(title := q.title), t) <==>
                 Matching(tasks, Only(q.project), t) && q.title.value(Get(tasks[t].values, Title).value))
    ensures q.labelled != None ==>
              (Matching(tasks, Only(q.project).(labelled := q.labelled), t) <==>
                 && Matching(tasks, Only(q.project), t)
                 && exists i :: 0 <= i < |tasks[t].labels| && tasks[t].labels[i] == q.labelled.value)
    ensures Matching(tasks, q, t) <==>
              && Matching(tasks, Only(q.project).(status := q.status), t)
              && Matching(tasks, Only(q.project).(priority := q.priority), t)
              && Matching(tasks, Only(q.project).(assignee := q.assignee), t)
              && Matching(tasks, Only(q.project).(title := q.title), t)
              && Matching(tasks, Only(q.project).(labelled := q.labelled), t)
  {
  }

  function RowOf(q: Query, t: TaskId): Row {
    Row(t, if q.labelled.Some? then Some(Link(t, q.labelled.value)) else None)
  }

  /** What the database may answer before the page is cut out: the selected rows in any order that
      the sort column allows. `key` ranks the sort column, negated for a descending sort. */
  ghost predicate MayReturn(tasks: map<TaskId, Task>, q: Query, key: TaskId -> int, rows: seq<Row>) {
    && NoDuplicates(rows) && (forall r :: r in rows <==> Selected(tasks, q, r))
    && forall i, j :: 0 <= i < j < |rows| ==> key(rows[i].task) <= key(rows[j].task)
  }

  function Tasks(rows: seq<Row>): seq<TaskId> {
    seq(|rows|, i requires 0 <= i < |rows| => rows[i].task)
  }

  /** An arrangement of a set in which the key never falls. */
  ghost predicate Arranges(items: set<Item>, key: Item -> int, xs: seq<Item>) {
    && NoDuplicates(xs) && (forall t :: t in xs <==> t in items)
    && forall i, j :: 0 <= i < j < |xs| ==> key(xs[i]) <= key(xs[j])
  }

  /** Since a link row is unique per task and label, the join repeats no task: an answer is an
      arrangement of the matching tasks, and its length is the distinct count. */
  lemma AnswersArrange(tasks: map<TaskId, Task>, q: Query, key: TaskId -> int, rows: seq<Row>)
    requires MayReturn(tasks, q, key, rows)
    ensures Arranges(MatchingTasks(tasks, q), key, Tasks(rows))
    ensures |Tasks(rows)| == |MatchingTasks(tasks, q)|
  {
    var xs := Tasks(rows);
    forall i, j | 0 <= i < j < |xs| ensures xs[i] != xs[j] {
      assert rows[i] in rows && rows[j] in rows;
    }
    forall t ensures t in xs <==> Matching(tasks, q, t) {
      var r := RowOf(q, t);
      if t in xs {
        var i :| 0 <= i < |xs| && xs[i] == t;
        assert rows[i] in rows;
      }
      if Matching(tasks, q, t) {
        assert Selected(tasks, q, r);
        var i :| 0 <= i < |rows| && rows[i] == r;
        assert xs[i] == t;
      }
    }
    LengthIsCount(xs, MatchingTasks(tasks, q));
  }

  lemma {:induction false} LengthIsCount(xs: seq<Item>, items: set<Item>)
    requires NoDuplicates(xs) && forall t :: t in xs <==> t in items
    ensures |xs| == |items|
  {
    if xs == [] {
      assert items == {};
    } else {
      var shorter, last := xs[..|xs| - 1], xs[|xs| - 1];
      assert xs == shorter + [last] && last !in shorter;
      LengthIsCount(shorter, items - {last});
      assert last in items;
    }
  }

  // ---------------------------------------------------------------- pages

  function Least(a: int, b: int): int {
    if a < b then a else b
  }

  /** offset((page - 1) * size).limit(size) */
  function Page(xs: seq<Item>, page: nat, size: nat): seq<Item>
    requires page >= 1 && size >= 1
  {
    var from := Least((page - 1) * size, |xs|);
    xs[from..Least(from + size, |xs|)]
  }

  /** What is on screen after `pages` pages; each page is cut from an answer of its own. */
  function Shown(answers: nat -> seq<Item>, size: nat, pages: nat): seq<Item>
    requires size >= 1
  {
    if pages == 0 then [] else Shown(answers, size, pages - 1) + Page(answers(pages), pages, size)
  }

  function PageCount(total: nat, size: nat): nat
    requires size >= 1
  {
    if total == 0 then 1 else (total + size - 1) / size
  }

  /** The next-page loop: it asks for pages while page * size < total, each answered afresh. */
  method WalkPages(answers: nat -> seq<Item>, total: nat, size: nat) returns (items: seq<Item>, pages: nat)
    requires size >= 1
    ensures pages == PageCount(total, size) && items == Shown(answers, size, pages)
  {
    pages := 1;
    items := Page(answers(1), 1, size);
    assert Shown(answers, size, 0) == [];
    while pages * size < total
      invariant pages >= 1 && (pages == 1 || (pages - 1) * size < total)
      invariant items == Shown(answers, size, pages)
      decreases total - pages * size
    {
      pages := pages + 1;
      assert (pages - 1) * size + size == pages * size;
      items := items + Page(answers(pages), pages, size);
    }
    if total > 0 { CeilingIs(total, size, pages); }
  }

  lemma CeilingIs(total: nat, size: nat, pages: nat)
    requires size >= 1 && pages >= 1 && (pages - 1) * size < total <= pages * size
    ensures pages == (total + size - 1) / size
  {
    var over := total + size - 1 - pages * size;
    assert (pages - 1) * size == pages * size - size;
    assert total + size - 1 == pages * size + over && 0 <= over < size;
    DivisionIs(pages, size, over);
  }

  lemma DivisionIs(q: nat, size: nat, r: nat)
    requires r < size
    ensures (q * size + r) / size == q
  {
    var d := (q * size + r) / size;
    assert q * size + r == d * size + (q * size + r) % size;
    if d < q { ProductGrows(d + 1, q, size); }
    if d > q { ProductGrows(q + 1, d, size); }
  }

  lemma ProductGrows(a: nat, b: nat, c: nat)
    requires a <= b
    ensures a * c <= b * c
  {
  }

  lemma PagesCover(total: nat, size: nat)
    requires size >= 1
    ensures PageCount(total, size) >= 1 && total <= PageCount(total, size) * size
  {
    if total > 0 {
      var n := total + size - 1;
      assert n == n / size * size + n % size;
    }
  }

  /** Where page `page` ends in a list of `total`. */
  function End(page: nat, size: nat, total: nat): (e: nat)
    ensures e <= total
  {
    if page == 0 then 0 else Least(End(page - 1, size, total) + size, total)
  }

  lemma {:induction false} EndIs(page: nat, size: nat, total: nat)
    ensures End(page, size, total) == Least(page * size, total)
  {
    if page > 0 {
      EndIs(page - 1, size, total);
      assert page * size == (page - 1) * size + size;
    }
  }

  /** Page `p` is full and more follows. */
  predicate IsBoundary(p: nat, size: nat, total: nat) {
    p >= 1 && End(p, size, total) < total
  }

  lemma PageIs(xs: seq<Item>, page: nat, size: nat)
    requires page >= 1 && size >= 1
    ensures Page(xs, page, size) == xs[End(page - 1, size, |xs|)..End(page, size, |xs|)]
  {
    EndIs(page - 1, size, |xs|);
  }

  /** From page p on, the pages of one list are its slices. */
  lemma {:induction false} ShownFrom(answers: nat -> seq<Item>, size: nat, p: nat, m: nat, ys: seq<Item>)
    requires size >= 1 && p <= m && forall n :: p < n <= m ==> answers(n) == ys
    ensures End(p, size, |ys|) <= End(m, size, |ys|)
    ensures Shown(answers, size, m) == Shown(answers, size, p) + ys[End(p, size, |ys|)..End(m, size, |ys|)]
    decreases m
  {
    if p < m {
      ShownFrom(answers, size, p, m - 1, ys);
      NextSlice(Shown(answers, size, p), ys, size, p, m);
    }
  }

  lemma NextSlice(shown: seq<Item>, ys: seq<Item>, size: nat, p: nat, m: nat)
    requires size >= 1 && p < m && End(p, size, |ys|) <= End(m - 1, size, |ys|)
    ensures End(m - 1, size, |ys|) <= End(m, size, |ys|)
    ensures shown + ys[End(p, size, |ys|)..End(m - 1, size, |ys|)] + Page(ys, m, size)
         == shown + ys[End(p, size, |ys|)..End(m, size, |ys|)]
  {
    PageIs(ys, m, size);
  }

  lemma LastEnd(total: nat, size: nat)
    requires size >= 1
    ensures End(PageCount(total, size), size, total) == total
  {
    PagesCover(total, size);
    EndIs(PageCount(total, size), size, total);
  }

  lemma BoundaryInside(p: nat, size: nat, total: nat)
    requires size >= 1 && IsBoundary(p, size, total)
    ensures 0 < End(p, size, total) == p * size && p <= PageCount(total, size)
  {
    PagesCover(total, size);
    EndIs(p, size, total);
    ProductGrows(1, p, size);
    if PageCount(total, size) < p { ProductGrows(PageCount(total, size), p, size); }
  }

  // ---------------------------------------------------------------- with a total tie order

  predicate NoTieAt(key: Item -> int, xs: seq<Item>, b: nat) {
    0 < b < |xs| ==> key(xs[b - 1]) < key(xs[b])
  }

  /** Where the sort key rises, every arrangement has the same tasks before that point. */
  lemma SameBefore(items: set<Item>, key: Item -> int, xs: seq<Item>, ys: seq<Item>, b: nat, t: Item)
    requires Arranges(items, key, xs) && Arranges(items, key, ys) && b <= |xs| && NoTieAt(key, xs, b)
    ensures |ys| == |xs| && (t in ys[..b] <==> t in xs[..b])
  {
    LengthIsCount(xs, items);
    LengthIsCount(ys, items);
    if 0 < b < |xs| {
      var low := set u | u in items && key(u) <= key(xs[b - 1]);
      LowPrefix(items, key, xs, b, low);
      var c := PrefixOf(items, key, ys, key(xs[b - 1]), low);
      LengthIsCount(xs[..b], low);
      LengthIsCount(ys[..c], low);
    } else if b == |xs| {
      assert xs[..b] == xs && ys[..b] == ys;
    }
  }

  lemma LowPrefix(items: set<Item>, key: Item -> int, xs: seq<Item>, b: nat, low: set<Item>)
    requires Arranges(items, key, xs) && 0 < b < |xs| && key(xs[b - 1]) < key(xs[b])
    requires low == set u | u in items && key(u) <= key(xs[b - 1])
    ensures forall t :: t in xs[..b] <==> t in low
  {
    forall t ensures t in xs[..b] <==> t in low {
      if t in low {
        var i :| 0 <= i < |xs| && xs[i] == t;
        assert i < b;
      }
      if t in xs[..b] {
        var i :| 0 <= i < b && xs[i] == t;
        assert xs[i] in items;
      }
    }
  }

  /** The tasks with a key up to a bound are a prefix of every arrangement. */
  lemma {:induction false} PrefixOf(items: set<Item>, key: Item -> int, ys: seq<Item>, bound: int, low: set<Item>)
    returns (c: nat)
    requires Arranges(items, key, ys) && low == set u | u in items && key(u) <= bound
    ensures c <= |ys| && forall t :: t in ys[..c] <==> t in low
  {
    c := 0;
    while c < |ys| && key(ys[c]) <= bound
      invariant c <= |ys| && forall i :: 0 <= i < c ==> key(ys[i]) <= bound
    {
      c := c + 1;
    }
    forall t ensures t in ys[..c] <==> t in low {
      if t in low {
        var i :| 0 <= i < |ys| && ys[i] == t;
        assert i < c;
      }
      if t in ys[..c] {
        var i :| 0 <= i < c && ys[i] == t;
        assert ys[i] in items;
      }
    }
  }

  /** With a total tie order there is only one answer. */
  lemma OneAnswer(items: set<Item>, key: Item -> int, xs: seq<Item>, ys: seq<Item>)
    requires Arranges(items, key, xs) && Arranges(items, key, ys)
    requires forall t, u :: t in items && u in items && key(t) == key(u) ==> t == u
    ensures xs == ys
  {
    SameBefore(items, key, xs, ys, 0, 0);
    forall i | 0 <= i < |xs| ensures xs[i] == ys[i] {
      NoTies(items, key, xs, i);
      NoTies(items, key, xs, i + 1);
      AnswerAt(items, key, xs, ys, i);
    }
  }

  lemma NoTies(items: set<Item>, key: Item -> int, xs: seq<Item>, b: nat)
    requires Arranges(items, key, xs) && b <= |xs|
    requires forall t, u :: t in items && u in items && key(t) == key(u) ==> t == u
    ensures NoTieAt(key, xs, b)
  {
    if 0 < b < |xs| { assert xs[b - 1] in items && xs[b] in items && xs[b - 1] != xs[b]; }
  }

  lemma AnswerAt(items: set<Item>, key: Item -> int, xs: seq<Item>, ys: seq<Item>, i: nat)
    requires Arranges(items, key, xs) && Arranges(items, key, ys) && i < |xs| == |ys|
    requires NoTieAt(key, xs, i) && NoTieAt(key, xs, i + 1)
    ensures xs[i] == ys[i]
  {
    SameBefore(items, key, xs, ys, i, xs[i]);
    SameBefore(items, key, xs, ys, i + 1, xs[i]);
    assert xs[..i + 1][i] == xs[i];
    assert ys[..i + 1] == ys[..i] + [ys[i]];
  }

  /** If the sort key ranks no two tasks alike, then however each page's request is answered, the
      pages together are the whole sorted list of matching tasks, and `total` is its length. */
  method WalkTotallyOrdered(tasks: map<TaskId, Task>, q: Query, key: TaskId -> int, answers: nat -> seq<Row>,
                            total: nat, size: nat)
    returns (items: seq<TaskId>, pages: nat)
    requires total == |CountedTasks(tasks, q)|
    requires size >= 1 && forall p :: MayReturn(tasks, q, key, answers(p))
    requires forall t, u :: Matching(tasks, q, t) && Matching(tasks, q, u) && key(t) == key(u) ==> t == u
    ensures Arranges(MatchingTasks(tasks, q), key, items)
    ensures |items| == total && pages == PageCount(total, size)
  {
    CountedAreMatching(tasks, q);
    AnswersArrange(tasks, q, key, answers(1));
    items, pages := WalkPages(Lists(answers), total, size);
    var xs := Tasks(answers(1));
    forall p: nat ensures Tasks(answers(p)) == xs {
      AnswersArrange(tasks, q, key, answers(p));
      AnswersArrange(tasks, q, key, answers(1));
      OneAnswer(MatchingTasks(tasks, q), key, Tasks(answers(p)), xs);
    }
    ShownFrom(Lists(answers), size, 0, pages, xs);
    PagesCover(total, size);
    EndIs(pages, size, total);
    assert xs[0..|xs|] == xs;
    AnswersArrange(tasks, q, key, answers(1));
  }

  // ---------------------------------------------------------------- exactly when ties are harmless

  /** A group of equal sort keys lies on both sides of some page boundary. */
  ghost predicate Straddles(key: Item -> int, xs: seq<Item>, size: nat) {
    exists p: nat :: IsBoundary(p, size, |xs|) && !NoTieAt(key, xs, End(p, size, |xs|))
  }

  /** Pages agree as multisets when no tie straddles their boundaries. */
  lemma {:induction false} SameShown(items: set<Item>, key: Item -> int, xs: seq<Item>, answers: nat -> seq<Item>,
                                     size: nat, m: nat, t: Item)
    requires size >= 1 && Arranges(items, key, xs) && !Straddles(key, xs, size)
    requires forall p :: Arranges(items, key, answers(p))
    ensures multiset(Shown(answers, size, m))[t] == if t in xs[..End(m, size, |xs|)] then 1 else 0
    decreases m
  {
    if m > 0 {
      SameShown(items, key, xs, answers, size, m - 1, t);
      NextPage(items, key, xs, answers(m), size, m, t, Shown(answers, size, m - 1));
    }
  }

  lemma NextPage(items: set<Item>, key: Item -> int, xs: seq<Item>, ys: seq<Item>, size: nat, m: nat, t: Item,
                 shown: seq<Item>)
    requires size >= 1 && m >= 1 && Arranges(items, key, xs) && Arranges(items, key, ys) && !Straddles(key, xs, size)
    requires multiset(shown)[t] == if t in xs[..End(m - 1, size, |xs|)] then 1 else 0
    ensures multiset(shown + Page(ys, m, size))[t] == if t in xs[..End(m, size, |xs|)] then 1 else 0
  {
    NoTieAtEnd(key, xs, size, m - 1);
    NoTieAtEnd(key, xs, size, m);
    SameBefore(items, key, xs, ys, 0, t);
    PageIs(ys, m, size);
    PageOnce(items, key, xs, ys, End(m - 1, size, |xs|), End(m, size, |xs|), t);
  }

  lemma PageOnce(items: set<Item>, key: Item -> int, xs: seq<Item>, ys: seq<Item>, from: nat, to: nat, t: Item)
    requires Arranges(items, key, xs) && Arranges(items, key, ys) && from <= to <= |xs| == |ys|
    requires NoTieAt(key, xs, from) && NoTieAt(key, xs, to)
    ensures multiset(ys[from..to])[t] == if t in xs[..to] && t !in xs[..from] then 1 else 0
    ensures t in xs[..from] ==> t in xs[..to]
  {
    SameBefore(items, key, xs, ys, from, t);
    SameBefore(items, key, xs, ys, to, t);
    OnceIn(ys, from, to, t);
    assert xs[..to] == xs[..from] + xs[from..to];
  }

  lemma NoTieAtEnd(key: Item -> int, xs: seq<Item>, size: nat, p: nat)
    requires size >= 1 && !Straddles(key, xs, size)
    ensures NoTieAt(key, xs, End(p, size, |xs|))
  {
    if p >= 1 && End(p, size, |xs|) < |xs| { assert IsBoundary(p, size, |xs|); }
  }

  lemma OnceIn(ys: seq<Item>, from: nat, to: nat, t: Item)
    requires NoDuplicates(ys) && from <= to <= |ys|
    ensures multiset(ys[from..to])[t] == if t in ys[..to] && t !in ys[..from] then 1 else 0
  {
    assert ys[..to] == ys[..from] + ys[from..to];
    CountOne(ys[from..to], t);
    assert forall i, j :: 0 <= i < from <= j < to ==> ys[i] != ys[j];
  }

  lemma {:induction false} CountOne(xs: seq<Item>, t: Item)
    requires NoDuplicates(xs)
    ensures multiset(xs)[t] == if t in xs then 1 else 0
  {
    if xs != [] {
      var shorter, last := xs[..|xs| - 1], xs[|xs| - 1];
      assert xs == shorter + [last] && last !in shorter;
      CountOne(shorter, t);
    }
  }

  /** The two tasks on either side of a boundary, exchanged. */
  function Exchanged(xs: seq<Item>, b: nat): seq<Item>
    requires 0 < b < |xs|
  {
    xs[b - 1 := xs[b]][b := xs[b - 1]]
  }

  lemma ExchangedArranges(items: set<Item>, key: Item -> int, xs: seq<Item>, b: nat)
    requires Arranges(items, key, xs) && 0 < b < |xs| && key(xs[b - 1]) == key(xs[b])
    ensures Arranges(items, key, Exchanged(xs, b))
  {
    var ys := Exchanged(xs, b);
    forall t ensures t in ys <==> t in items {
      if t in items {
        var i :| 0 <= i < |xs| && xs[i] == t;
        assert ys[if i == b then b - 1 else if i == b - 1 then b else i] == t;
      }
    }
  }

  /** Two requests that settle a tie across a page boundary differently show one task twice and
      another never. */
  lemma TieShowsTwice(items: set<Item>, key: Item -> int, xs: seq<Item>, size: nat, p: nat)
    returns (answers: nat -> seq<Item>)
    requires size >= 1 && Arranges(items, key, xs) && IsBoundary(p, size, |xs|) && !NoTieAt(key, xs, End(p, size, |xs|))
    ensures forall n :: Arranges(items, key, answers(n))
    ensures var shown := multiset(Shown(answers, size, PageCount(|xs|, size)));
            var b := End(p, size, |xs|);
            0 < b < |xs| && shown[xs[b - 1]] == 2 && shown[xs[b]] == 0
  {
    var b := End(p, size, |xs|);
    BoundaryInside(p, size, |xs|);
    var ys := Exchanged(xs, b);
    ExchangedArranges(items, key, xs, b);
    answers := n => if n <= p then xs else ys;
    TwoAnswers(answers, xs, ys, size, p);
    ExchangeCounts(xs, b);
  }

  lemma TwoAnswers(answers: nat -> seq<Item>, xs: seq<Item>, ys: seq<Item>, size: nat, p: nat)
    requires size >= 1 && |xs| == |ys| && IsBoundary(p, size, |xs|)
    requires forall n: nat :: answers(n) == if n <= p then xs else ys
    ensures Shown(answers, size, PageCount(|xs|, size)) == xs[..End(p, size, |xs|)] + ys[End(p, size, |xs|)..]
  {
    BoundaryInside(p, size, |xs|);
    LastEnd(|xs|, size);
    ShownFrom(answers, size, 0, p, xs);
    ShownFrom(answers, size, p, PageCount(|xs|, size), ys);
    Slices(xs, ys, End(p, size, |xs|));
  }

  lemma Slices(xs: seq<Item>, ys: seq<Item>, b: nat)
    requires b <= |xs| == |ys|
    ensures [] + xs[0..b] + ys[b..|ys|] == xs[..b] + ys[b..]
  {
  }

  lemma ExchangeCounts(xs: seq<Item>, b: nat)
    requires NoDuplicates(xs) && 0 < b < |xs|
    ensures multiset(xs[..b] + Exchanged(xs, b)[b..])[xs[b - 1]] == 2
    ensures multiset(xs[..b] + Exchanged(xs, b)[b..])[xs[b]] == 0
  {
    var head, tail := xs[..b - 1], xs[b + 1..];
    assert xs[..b] == head + [xs[b - 1]] && Exchanged(xs, b)[b..] == [xs[b - 1]] + tail;
    assert xs[b - 1] !in head && xs[b - 1] !in tail && xs[b] !in head && xs[b] !in tail;
    CountTwice(head, xs[b - 1], tail, xs[b]);
  }

  lemma CountTwice(head: seq<Item>, t: Item, tail: seq<Item>, u: Item)
    requires t !in head && t !in tail && u !in head && u !in tail && t != u
    ensures multiset((head + [t]) + ([t] + tail))[t] == 2 && multiset((head + [t]) + ([t] + tail))[u] == 0
  {
    assert multiset(head)[t] == 0 && multiset(tail)[t] == 0 && multiset(head)[u] == 0 && multiset(tail)[u] == 0;
  }

  lemma ArrangementsAreAnswers(tasks: map<TaskId, Task>, q: Query, key: TaskId -> int, xs: seq<TaskId>)
    returns (rows: seq<Row>)
    requires Arranges(MatchingTasks(tasks, q), key, xs)
    ensures rows == RowsOf(q, xs) && MayReturn(tasks, q, key, rows) && Tasks(rows) == xs
  {
    rows := RowsOf(q, xs);
    forall r ensures r in rows <==> Selected(tasks, q, r) {
      if Selected(tasks, q, r) {
        assert r.task in MatchingTasks(tasks, q) && r.task in xs;
        var i :| 0 <= i < |xs| && xs[i] == r.task;
        assert rows[i] == r;
      }
      if r in rows {
        var i :| 0 <= i < |rows| && rows[i] == r;
        assert xs[i] in xs;
      }
    }
  }

  function RowsOf(q: Query, xs: seq<TaskId>): seq<Row> {
    seq(|xs|, i requires 0 <= i < |xs| => RowOf(q, xs[i]))
  }

  function Lists(answers: nat -> seq<Row>): nat -> seq<TaskId> {
    p => Tasks(answers(p))
  }

  ghost predicate AllMayReturn(tasks: map<TaskId, Task>, q: Query, key: TaskId -> int, answers: nat -> seq<Row>) {
    forall p :: MayReturn(tasks, q, key, answers(p))
  }

  ghost predicate ShownOnce(tasks: map<TaskId, Task>, q: Query, answers: nat -> seq<Row>, size: nat, pages: nat)
    requires size >= 1
  {
    forall t {:trigger Matching(tasks, q, t)} :: Matching(tasks, q, t) ==>
        multiset(Shown(Lists(answers), size, pages))[t] == 1
  }

  lemma ShownOnceWithoutTies(tasks: map<TaskId, Task>, q: Query, key: TaskId -> int, xs: seq<TaskId>,
                             answers: nat -> seq<Row>, size: nat)
    requires size >= 1 && Arranges(MatchingTasks(tasks, q), key, xs) && !Straddles(key, xs, size)
    requires AllMayReturn(tasks, q, key, answers)
    ensures ShownOnce(tasks, q, answers, size, PageCount(|xs|, size))
  {
    forall p: nat ensures Arranges(MatchingTasks(tasks, q), key, Lists(answers)(p)) {
      AnswersArrange(tasks, q, key, answers(p));
    }
    forall t | Matching(tasks, q, t) ensures multiset(Shown(Lists(answers), size, PageCount(|xs|, size)))[t] == 1 {
      SameShown(MatchingTasks(tasks, q), key, xs, Lists(answers), size, PageCount(|xs|, size), t);
      LastEnd(|xs|, size);
      assert xs[..|xs|] == xs && t in MatchingTasks(tasks, q);
    }
  }

  lemma TieLoses(items: set<Item>, key: Item -> int, xs: seq<Item>, size: nat)
    returns (lists: nat -> seq<Item>, lost: Item)
    requires size >= 1 && Arranges(items, key, xs) && Straddles(key, xs, size)
    ensures forall n :: Arranges(items, key, lists(n))
    ensures lost in items && multiset(Shown(lists, size, PageCount(|xs|, size)))[lost] == 0
  {
    var p: nat :| IsBoundary(p, size, |xs|) && !NoTieAt(key, xs, End(p, size, |xs|));
    lists := TieShowsTwice(items, key, xs, size, p);
    lost := xs[End(p, size, |xs|)];
    assert lost in xs;
  }

  lemma TieNotShown(tasks: map<TaskId, Task>, q: Query, key: TaskId -> int, xs: seq<TaskId>, size: nat)
    returns (answers: nat -> seq<Row>)
    requires size >= 1 && Arranges(MatchingTasks(tasks, q), key, xs) && Straddles(key, xs, size)
    ensures AllMayReturn(tasks, q, key, answers) && !ShownOnce(tasks, q, answers, size, PageCount(|xs|, size))
  {
    var lists, lost := TieLoses(MatchingTasks(tasks, q), key, xs, size);
    answers := (n: nat) => RowsOf(q, lists(n));
    forall n: nat ensures MayReturn(tasks, q, key, answers(n)) && Lists(answers)(n) == lists(n) {
      var rows := ArrangementsAreAnswers(tasks, q, key, lists(n));
    }
    SameLists(Lists(answers), lists, size, PageCount(|xs|, size));
    assert Matching(tasks, q, lost);
  }

  /** The same for the task list itself: whatever order its queries come back in, paging through it
      shows every matching task exactly once, if and only if no tie straddles a page boundary. */
  lemma TaskListPagesOnceIff(tasks: map<TaskId, Task>, q: Query, key: TaskId -> int, rows: seq<Row>, size: nat)
    requires size >= 1 && MayReturn(tasks, q, key, rows)
    ensures (forall answers {:trigger AllMayReturn(tasks, q, key, answers)} ::
               AllMayReturn(tasks, q, key, answers) ==> ShownOnce(tasks, q, answers, size, PageCount(|rows|, size)))
       <==> !Straddles(key, Tasks(rows), size)
  {
    AnswersArrange(tasks, q, key, rows);
    if Straddles(key, Tasks(rows), size) {
      var answers := TieNotShown(tasks, q, key, Tasks(rows), size);
    } else {
      forall answers | AllMayReturn(tasks, q, key, answers)
        ensures ShownOnce(tasks, q, answers, size, PageCount(|rows|, size))
      {
        ShownOnceWithoutTies(tasks, q, key, Tasks(rows), answers, size);
      }
    }
  }

  lemma {:induction false} SameLists(a: nat -> seq<Item>, b: nat -> seq<Item>, size: nat, m: nat)
    requires size >= 1 && forall n :: a(n) == b(n)
    ensures Shown(a, size, m) == Shown(b, size, m)
  {
    if m > 0 { SameLists(a, b, size, m - 1); }
  }

  // ---------------------------------------------------------------- the activity feed

  /** An activity entry as its queries see it (backend/app/crud/activity.py:30-60); `created` ranks the
      creation time, the only column they sort by. */
  datatype FeedEntry = FeedEntry(project: ProjectId, task: Option<TaskId>, created: int)

  datatype Scope = OfProject(project: ProjectId) | OfTask(task: TaskId)

  predicate InScope(e: FeedEntry, scope: Scope) {
    match scope
    case OfProject(project) => e.project == project
    case OfTask(task) => e.task == Some(task)
  }

  function FeedItems(log: map<Item, FeedEntry>, scope: Scope): set<Item> {
    set i | i in log && InScope(log[i], scope)
  }

  /** order_by(created_at.desc()) */
  function Newest(log: map<Item, FeedEntry>): Item -> int {
    i => if i in log then -log[i].created else 0
  }

  ghost predicate FeedAnswers(log: map<Item, FeedEntry>, scope: Scope, answers: nat -> seq<Item>) {
    forall p :: Arranges(FeedItems(log, scope), Newest(log), answers(p))
  }

  ghost predicate FeedShownOnce(log: map<Item, FeedEntry>, scope: Scope, answers: nat -> seq<Item>, size: nat,
                                pages: nat)
    requires size >= 1
  {
    forall i {:trigger i in FeedItems(log, scope)} ::
      i in FeedItems(log, scope) ==> multiset(Shown(answers, size, pages))[i] == 1
  }

  /** The panel's loop shows every entry of the feed exactly once, however its requests settle ties, if
      and only if no group of entries created at the same time straddles a page boundary. */
  lemma FeedPagesOnceIff(log: map<Item, FeedEntry>, scope: Scope, xs: seq<Item>, size: nat)
    requires size >= 1 && Arranges(FeedItems(log, scope), Newest(log), xs)
    ensures (forall answers {:trigger FeedAnswers(log, scope, answers)} ::
               FeedAnswers(log, scope, answers) ==>
                 FeedShownOnce(log, scope, answers, size, PageCount(|FeedItems(log, scope)|, size)))
       <==> !Straddles(Newest(log), xs, size)
  {
    var items, key := FeedItems(log, scope), Newest(log);
    LengthIsCount(xs, items);
    if Straddles(key, xs, size) {
      var answers, lost := TieLoses(items, key, xs, size);
      assert FeedAnswers(log, scope, answers);
    } else {
      LastEnd(|xs|, size);
      assert xs[..|xs|] == xs;
      forall answers | FeedAnswers(log, scope, answers)
        ensures FeedShownOnce(log, scope, answers, size, PageCount(|items|, size))
      {
        forall i | i in items ensures multiset(Shown(answers, size, PageCount(|items|, size)))[i] == 1 {
          SameShown(items, key, xs, answers, size, PageCount(|xs|, size), i);
        }
      }
    }
  }

  /** If no two entries of the feed were created at the same time, the pages together are the whole
      feed, newest first, and there are ceil(total / size) of them, or one. */
  method WalkFeed(log: map<Item, FeedEntry>, scope: Scope, answers: nat -> seq<Item>, size: nat)
    returns (items: seq<Item>, pages: nat)
    requires size >= 1 && FeedAnswers(log, scope, answers)
    requires forall i, j ::
               i in FeedItems(log, scope) && j in FeedItems(log, scope) && log[i].created == log[j].created ==> i == j
    ensures Arranges(FeedItems(log, scope), Newest(log), items)
    ensures |items| == |FeedItems(log, scope)| && pages == PageCount(|items|, size)
    ensures forall i :: i in items ==>
              && i in log
              && (if scope.OfProject? then log[i].project == scope.project else log[i].task == Some(scope.task))
    ensures forall m, n :: 0 <= m < n < |items| && items[m] in log && items[n] in log ==>
              log[items[m]].created >= log[items[n]].created
  {
    var xs := answers(1);
    LengthIsCount(xs, FeedItems(log, scope));
    items, pages := WalkPages(answers, |FeedItems(log, scope)|, size);
    forall p: nat ensures answers(p) == xs { OneAnswer(FeedItems(log, scope), Newest(log), answers(p), xs); }
    ShownFrom(answers, size, 0, pages, xs);
    LastEnd(|xs|, size);
    assert xs[0..|xs|] == xs;
  }
}
