/** Task persistence scoped to an owner: lookup by id AND owner, the filtered,
    ordered, paginated listing, and the create / partial update / delete
    operations on the `tasks` table. */
module TaskCrud {
  import opened Wrappers
  import opened Models
  import opened Schemas
  import Seqs
  import Text

  // ------------------------------------------------------------------ lookup

  /** The row a lookup for `id` on behalf of `owner` may return. */
  predicate IsTask(t: Task, id: string, owner: string)
  {
    t.id == id && t.userId == owner
  }

  /** Position of the first row matching both `id` and `owner`. */
  function FindTaskIndex(tasks: seq<Task>, id: string, owner: string): (r: Option<nat>)
    ensures r.Some? ==> r.value < |tasks| && IsTask(tasks[r.value], id, owner)
    ensures r.Some? ==> forall j :: 0 <= j < r.value ==> !IsTask(tasks[j], id, owner)
    ensures r.None? <==> forall t :: t in tasks ==> !IsTask(t, id, owner)
  {
    if tasks == [] then None
    else if IsTask(tasks[0], id, owner) then Some(0)
    else
      match FindTaskIndex(tasks[1..], id, owner)
      case None => None
      case Some(i) => Some(i + 1)
  }

  /** `get_task`: filters on id and owner together, so a task of another user
      and an unknown id both give `None`. */
  function GetTask(tasks: seq<Task>, id: string, owner: string): (r: Option<Task>)
    ensures r.Some? ==> r.value in tasks && r.value.id == id && r.value.userId == owner
    ensures r.None? <==> forall t :: t in tasks ==> !(t.id == id && t.userId == owner)
  {
    match FindTaskIndex(tasks, id, owner)
    case None => None
    case Some(i) => Some(tasks[i])
  }

  function OwnerIs(owner: string): Task -> bool
  {
    (t: Task) => t.userId == owner
  }

  /** A lookup answers the first row of the table that matches. */
  lemma GetTaskUnfold(tasks: seq<Task>, id: string, owner: string)
    requires tasks != []
    ensures GetTask(tasks, id, owner)
         == if IsTask(tasks[0], id, owner) then Some(tasks[0]) else GetTask(tasks[1..], id, owner)
  {
  }

  /** Other users' rows never influence a lookup: the answer is the same when
      the table holds only the caller's own tasks. */
  lemma {:induction false} GetTaskIgnoresOtherOwners(tasks: seq<Task>, id: string, owner: string)
    ensures GetTask(tasks, id, owner) == GetTask(Seqs.Filter(tasks, OwnerIs(owner)), id, owner)
  {
    if tasks != [] {
      var rest := Seqs.Filter(tasks[1..], OwnerIs(owner));
      GetTaskIgnoresOtherOwners(tasks[1..], id, owner);
      GetTaskUnfold(tasks, id, owner);
      if tasks[0].userId == owner {
        assert Seqs.Filter(tasks, OwnerIs(owner)) == [tasks[0]] + rest;
        GetTaskUnfold([tasks[0]] + rest, id, owner);
        assert ([tasks[0]] + rest)[1..] == rest;
      } else {
        assert Seqs.Filter(tasks, OwnerIs(owner)) == rest;
      }
    }
  }

  // ----------------------------------------------------------------- listing

  /** Parameters of `get_user_tasks` besides the owner. Timestamps are seconds. */
  datatype TaskQuery = TaskQuery(
    skip: nat,
    limit: nat,
    completed: Option<bool>,
    search: Option<string>,
    createdAfter: Option<Time>,
    createdBefore: Option<Time>)

  function CompletedIs(c: bool): Task -> bool
  {
    (t: Task) => t.completed == c
  }

  /** `title ILIKE %s% OR description ILIKE %s%`; a null description never matches. */
  predicate SearchMatches(t: Task, s: string)
  {
    Text.ContainsIgnoringCase(t.title, s)
    || (t.description.Some? && Text.ContainsIgnoringCase(t.description.value, s))
  }

  function Matching(s: string): Task -> bool
  {
    (t: Task) => SearchMatches(t, s)
  }

  function CreatedFrom(after: Time): Task -> bool
  {
    (t: Task) => t.createdAt >= after
  }

  function CreatedUntil(before: Time): Task -> bool
  {
    (t: Task) => t.createdAt <= before
  }

  /** A search text is applied only when it is present and non-empty. */
  predicate SearchActive(q: TaskQuery)
  {
    q.search.Some? && q.search.value != ""
  }

  /** Filtering by the empty search text would keep every row, so skipping
      an empty search changes nothing. */
  lemma EmptySearchKeepsAll(tasks: seq<Task>)
    ensures Seqs.Filter(tasks, Matching("")) == tasks
  {
    forall t | t in tasks
      ensures Matching("")(t)
    {
      Text.EmptyOccursEverywhere(t.title);
    }
    Seqs.FilterAll(tasks, Matching(""));
  }

  /** The owner filter and then each optional filter, in the order the query
      builder adds them. */
  function ApplyFilters(tasks: seq<Task>, owner: string, q: TaskQuery): seq<Task>
  {
    var owned := Seqs.Filter(tasks, OwnerIs(owner));
    var byStatus := if q.completed.Some? then Seqs.Filter(owned, CompletedIs(q.completed.value)) else owned;
    var bySearch := if SearchActive(q) then Seqs.Filter(byStatus, Matching(q.search.value)) else byStatus;
    var fromBound := if q.createdAfter.Some? then Seqs.Filter(bySearch, CreatedFrom(q.createdAfter.value)) else bySearch;
    if q.createdBefore.Some? then Seqs.Filter(fromBound, CreatedUntil(q.createdBefore.value)) else fromBound
  }

  /** Reference definition of which rows a listing selects: the caller's own,
      with the requested status, matching the search text in title or
      description, created inside the inclusive bounds. */
  predicate Selected(owner: string, q: TaskQuery, t: Task)
  {
    t.userId == owner
    && (q.completed.None? || t.completed == q.completed.value)
    && (!SearchActive(q) || SearchMatches(t, q.search.value))
    && (q.createdAfter.None? || t.createdAt >= q.createdAfter.value)
    && (q.createdBefore.None? || t.createdAt <= q.createdBefore.value)
  }

  function SelectedBy(owner: string, q: TaskQuery): Task -> bool
  {
    (t: Task) => Selected(owner, q, t)
  }

  function CreatedKey(): Task -> int
  {
    (t: Task) => t.createdAt
  }

  /** `get_user_tasks`: filter, order newest first, then `OFFSET skip LIMIT limit`.
      The order among rows created at the same instant is not specified by the
      source; this model keeps them in table order. */
  function GetUserTasks(tasks: seq<Task>, owner: string, q: TaskQuery): (r: seq<Task>)
    ensures |r| <= q.limit
    ensures forall t :: t in r ==> t in tasks && t.userId == owner
    ensures forall t :: t in r ==> Selected(owner, q, t)
    ensures Seqs.SortedDesc(r, CreatedKey())
    ensures q.skip >= |Seqs.Filter(tasks, SelectedBy(owner, q))| ==> r == []
  {
    var filtered := ApplyFilters(tasks, owner, q);
    var ordered := Seqs.SortDesc(filtered, CreatedKey());
    var page := Seqs.Page(ordered, q.skip, q.limit);
    FiltersAreSelection(tasks, owner, q);
    assert forall t :: t in page ==> t in tasks && Selected(owner, q, t) by {
      Seqs.SameMembers(ordered, filtered);
      Seqs.PageMembers(ordered, q.skip, q.limit);
    }
    assert Seqs.SortedDesc(page, CreatedKey()) by {
      Seqs.PageSorted(ordered, q.skip, q.limit, CreatedKey());
    }
    page
  }

  /** The chain of filters selects exactly the rows of the reference definition,
      in table order. */
  lemma FiltersAreSelection(tasks: seq<Task>, owner: string, q: TaskQuery)
    ensures ApplyFilters(tasks, owner, q) == Seqs.Filter(tasks, SelectedBy(owner, q))
  {
    var owned := Seqs.Filter(tasks, OwnerIs(owner));
    var p1: Task -> bool := (t: Task) => t.userId == owner && (q.completed.None? || t.completed == q.completed.value);
    var byStatus := if q.completed.Some? then Seqs.Filter(owned, CompletedIs(q.completed.value)) else owned;
    if q.completed.Some? {
      Seqs.FilterFilter(tasks, OwnerIs(owner), CompletedIs(q.completed.value), p1);
    } else {
      Seqs.FilterCongruent(tasks, OwnerIs(owner), p1);
    }
    assert byStatus == Seqs.Filter(tasks, p1);
    var p2: Task -> bool := (t: Task) => p1(t) && (!SearchActive(q) || SearchMatches(t, q.search.value));
    var bySearch := if SearchActive(q) then Seqs.Filter(byStatus, Matching(q.search.value)) else byStatus;
    if SearchActive(q) {
      Seqs.FilterFilter(tasks, p1, Matching(q.search.value), p2);
    } else {
      Seqs.FilterCongruent(tasks, p1, p2);
    }
    assert bySearch == Seqs.Filter(tasks, p2);
    var p3: Task -> bool := (t: Task) => p2(t) && (q.createdAfter.None? || t.createdAt >= q.createdAfter.value);
    var fromBound := if q.createdAfter.Some? then Seqs.Filter(bySearch, CreatedFrom(q.createdAfter.value)) else bySearch;
    if q.createdAfter.Some? {
      Seqs.FilterFilter(tasks, p2, CreatedFrom(q.createdAfter.value), p3);
    } else {
      Seqs.FilterCongruent(tasks, p2, p3);
    }
    assert fromBound == Seqs.Filter(tasks, p3);
    if q.createdBefore.Some? {
      Seqs.FilterFilter(tasks, p3, CreatedUntil(q.createdBefore.value), SelectedBy(owner, q));
    } else {
      Seqs.FilterCongruent(tasks, p3, SelectedBy(owner, q));
    }
  }

  /** The listing is the page `[skip, skip + limit)` of some newest-first
      ordering of exactly the selected rows (each as often as it occurs). */
  lemma GetUserTasksIsPageOfSelection(tasks: seq<Task>, owner: string, q: TaskQuery)
    ensures exists ordered: seq<Task> ::
      Seqs.SortedDesc(ordered, CreatedKey())
      && multiset(ordered) == multiset(Seqs.Filter(tasks, SelectedBy(owner, q)))
      && GetUserTasks(tasks, owner, q) == Seqs.Page(ordered, q.skip, q.limit)
  {
    FiltersAreSelection(tasks, owner, q);
    var ordered := Seqs.SortDesc(ApplyFilters(tasks, owner, q), CreatedKey());
    assert GetUserTasks(tasks, owner, q) == Seqs.Page(ordered, q.skip, q.limit);
  }

  /** Nothing selected is lost: when the whole selection fits in the first
      page, every selected row is listed. */
  lemma GetUserTasksComplete(tasks: seq<Task>, owner: string, q: TaskQuery, t: Task)
    requires t in tasks && Selected(owner, q, t)
    requires q.skip == 0 && |Seqs.Filter(tasks, SelectedBy(owner, q))| <= q.limit
    ensures t in GetUserTasks(tasks, owner, q)
  {
    FiltersAreSelection(tasks, owner, q);
    var filtered := ApplyFilters(tasks, owner, q);
    var ordered := Seqs.SortDesc(filtered, CreatedKey());
    Seqs.SameMembers(ordered, filtered);
    assert Seqs.Page(ordered, q.skip, q.limit) == ordered;
  }

  /** The listing depends only on the caller's own rows. */
  lemma GetUserTasksIgnoresOtherOwners(tasks: seq<Task>, owner: string, q: TaskQuery)
    ensures GetUserTasks(tasks, owner, q) == GetUserTasks(Seqs.Filter(tasks, OwnerIs(owner)), owner, q)
  {
    Seqs.FilterFilter(tasks, OwnerIs(owner), OwnerIs(owner), OwnerIs(owner));
  }

  // ---------------------------------------------------------- partial update

  /** One entry of `task_update.dict(exclude_unset=True)`. */
  datatype FieldValue =
    | TitleValue(title: string)
    | DescriptionValue(description: Option<string>)
    | CompletedValue(completed: bool)
    | PriorityValue(priority: int)

  /** The fields the client sent, in declaration order. */
  function SetFields(u: TaskUpdate): (fs: seq<FieldValue>)
    ensures u.title.Some? ==> TitleValue(u.title.value) in fs
    ensures u.description.Some? ==> DescriptionValue(u.description.value) in fs
    ensures u.completed.Some? ==> CompletedValue(u.completed.value) in fs
    ensures u.priority.Some? ==> PriorityValue(u.priority.value) in fs
    ensures |fs| == (if u.title.Some? then 1 else 0) + (if u.description.Some? then 1 else 0)
                    + (if u.completed.Some? then 1 else 0) + (if u.priority.Some? then 1 else 0)
  {
    (if u.title.Some? then [TitleValue(u.title.value)] else [])
    + (if u.description.Some? then [DescriptionValue(u.description.value)] else [])
    + (if u.completed.Some? then [CompletedValue(u.completed.value)] else [])
    + (if u.priority.Some? then [PriorityValue(u.priority.value)] else [])
  }

  /** `setattr(row, field, value)`. */
  function SetAttr(t: Task, f: FieldValue): Task
  {
    match f
    case TitleValue(v) => t.(title := v)
    case DescriptionValue(v) => t.(description := v)
    case CompletedValue(v) => t.(completed := v)
    case PriorityValue(v) => t.(priority := v)
  }

  /** The row after assigning `fs` in order. */
  function SetAttrs(t: Task, fs: seq<FieldValue>): Task
  {
    if fs == [] then t else SetAttr(SetAttrs(t, fs[..|fs| - 1]), fs[|fs| - 1])
  }

  /** Reference definition of a partial update: a sent field takes the sent
      value, every other column keeps its value. */
  function Patch(t: Task, u: TaskUpdate): (p: Task)
    ensures p.id == t.id && p.userId == t.userId
    ensures p.createdAt == t.createdAt && p.updatedAt == t.updatedAt
  {
    t.(title := u.title.GetOr(t.title),
       description := u.description.GetOr(t.description),
       completed := u.completed.GetOr(t.completed),
       priority := u.priority.GetOr(t.priority))
  }

  /** Assigning the sent fields one by one is the reference partial update. */
  lemma SetAttrsIsPatch(t: Task, u: TaskUpdate)
    ensures SetAttrs(t, SetFields(u)) == Patch(t, u)
  {
    var a := if u.title.Some? then [TitleValue(u.title.value)] else [];
    var b := if u.description.Some? then [DescriptionValue(u.description.value)] else [];
    var c := if u.completed.Some? then [CompletedValue(u.completed.value)] else [];
    var d := if u.priority.Some? then [PriorityValue(u.priority.value)] else [];
    assert SetFields(u) == a + b + c + d;
    SetAttrsInFour(t, a, b, c, d);
    var t1 := SetAttrs(t, a);
    var t2 := SetAttrs(t1, b);
    var t3 := SetAttrs(t2, c);
    SetAttrsAtMostOne(t, a);
    SetAttrsAtMostOne(t1, b);
    SetAttrsAtMostOne(t2, c);
    SetAttrsAtMostOne(t3, d);
  }

  /** Assigning four groups of fields is assigning them group after group. */
  lemma SetAttrsInFour(t: Task, a: seq<FieldValue>, b: seq<FieldValue>, c: seq<FieldValue>, d: seq<FieldValue>)
    ensures SetAttrs(t, a + b + c + d) == SetAttrs(SetAttrs(SetAttrs(SetAttrs(t, a), b), c), d)
  {
    SetAttrsConcat(t, a, b);
    SetAttrsConcat(t, a + b, c);
    SetAttrsConcat(t, a + b + c, d);
  }

  lemma SetAttrsAtMostOne(t: Task, fs: seq<FieldValue>)
    requires |fs| <= 1
    ensures SetAttrs(t, fs) == if fs == [] then t else SetAttr(t, fs[0])
  {
    if fs != [] {
      assert fs[..0] == [];
    }
  }

  lemma {:induction false} SetAttrsConcat(t: Task, fs: seq<FieldValue>, gs: seq<FieldValue>)
    ensures SetAttrs(t, fs + gs) == SetAttrs(SetAttrs(t, fs), gs)
    decreases |gs|
  {
    if gs == [] {
      assert fs + gs == fs;
    } else {
      assert (fs + gs)[..|fs + gs| - 1] == fs + gs[..|gs| - 1];
      SetAttrsConcat(t, fs, gs[..|gs| - 1]);
    }
  }

  /** The row `update_task` writes back: the patch, with `updated_at` set to
      `now` when the patch changes a column (an UPDATE is issued only then). */
  function Updated(t: Task, u: TaskUpdate, now: Time): (r: Task)
    ensures r.id == t.id && r.userId == t.userId && r.createdAt == t.createdAt
    ensures r.title == (if u.title.Some? then u.title.value else t.title)
    ensures r.description == (if u.description.Some? then u.description.value else t.description)
    ensures r.completed == (if u.completed.Some? then u.completed.value else t.completed)
    ensures r.priority == (if u.priority.Some? then u.priority.value else t.priority)
    ensures r.updatedAt == (if Patch(t, u) != t then now else t.updatedAt)
  {
    var p := Patch(t, u);
    if p != t then p.(updatedAt := now) else t
  }

  /** A validated update keeps a well-formed row well-formed. */
  lemma UpdatedWellFormed(t: Task, u: TaskUpdate, now: Time)
    requires WellFormedTask(t) && ValidTaskUpdate(u)
    ensures WellFormedTask(Updated(t, u, now))
  {
  }

  /** An update that sends nothing leaves the row exactly as it was. */
  lemma EmptyUpdateIsIdentity(t: Task, now: Time)
    ensures Updated(t, TaskUpdate(None, None, None, None), now) == t
  {
  }

  // ------------------------------------------------------------------- table

  /** The `setattr` loop over the sent fields: assigns them to the row in order. */
  method AssignFields(current: Task, fields: seq<FieldValue>) returns (row: Task)
    ensures row == SetAttrs(current, fields)
  {
    row := current;
    var k := 0;
    while k < |fields|
      invariant 0 <= k <= |fields|
      invariant row == SetAttrs(current, fields[..k])
    {
      assert fields[..k + 1][..k] == fields[..k];
      row := SetAttr(row, fields[k]);
      k := k + 1;
    }
    assert fields[..k] == fields;
  }

  /** Rewriting a row in place under its own id with a well-formed row keeps
      the ids unique and every row well-formed. */
  lemma ReplaceKeepsTableValid(tasks: seq<Task>, i: nat, row: Task)
    requires i < |tasks| && UniqueTaskIds(tasks) && row.id == tasks[i].id
    requires forall t :: t in tasks ==> WellFormedTask(t)
    requires WellFormedTask(row)
    ensures UniqueTaskIds(tasks[i := row])
    ensures forall t :: t in tasks[i := row] ==> WellFormedTask(t)
  {
    forall t | t in tasks[i := row]
      ensures WellFormedTask(t)
    {
      var j :| 0 <= j < |tasks| && tasks[i := row][j] == t;
      if j != i { assert tasks[j] == t; }
    }
  }

  /** Removing the row at `i` keeps the ids unique, leaves no row with its id
      and keeps every row with another id. */
  lemma RemoveAt(tasks: seq<Task>, i: nat)
    requires i < |tasks| && UniqueTaskIds(tasks)
    ensures var rest := tasks[..i] + tasks[i + 1..];
      UniqueTaskIds(rest)
      && (forall t :: t in rest ==> t in tasks && t.id != tasks[i].id)
      && (forall t :: t in tasks && t.id != tasks[i].id ==> t in rest)
  {
    var rest := tasks[..i] + tasks[i + 1..];
    assert forall j :: 0 <= j < |rest| ==> rest[j] == if j < i then tasks[j] else tasks[j + 1];
    forall t | t in tasks && t.id != tasks[i].id
      ensures t in rest
    {
      var j :| 0 <= j < |tasks| && tasks[j] == t;
      if j < i { assert rest[j] == t; } else { assert rest[j - 1] == t; }
    }
  }

  /** The `tasks` table as the session sees it. */
  class TaskTable {
    var tasks: seq<Task>

    ghost predicate Valid()
      reads this
    {
      UniqueTaskIds(tasks) && forall t :: t in tasks ==> WellFormedTask(t)
    }

    constructor ()
      ensures Valid() && tasks == []
    {
      tasks := [];
    }

    /** `create_task`: the owner is the `userId` argument, never a body field;
        `id` is the fresh UUID the column default generates. */
    method CreateTask(body: TaskCreate, userId: string, id: string, now: Time) returns (t: Task)
      requires Valid() && ValidTaskCreate(body)
      requires forall x :: x in tasks ==> x.id != id
      modifies this
      ensures Valid()
      ensures t == NewTask(id, body.title, body.description, Some(body.completed), Some(body.priority), userId, now)
      ensures tasks == old(tasks) + [t]
      ensures GetTask(tasks, id, userId) == Some(t)
    {
      t := NewTask(id, body.title, body.description, Some(body.completed), Some(body.priority), userId, now);
      tasks := tasks + [t];
      assert forall j :: 0 <= j < |tasks| - 1 ==> !IsTask(tasks[j], id, userId);
    }

    /** `update_task`: look the row up by id and owner; on a miss return `None`
        and change nothing; otherwise assign the sent fields one by one. */
    method UpdateTask(id: string, userId: string, u: TaskUpdate, now: Time) returns (r: Option<Task>)
      requires Valid() && ValidTaskUpdate(u)
      modifies this
      ensures Valid()
      ensures GetTask(old(tasks), id, userId).None? ==> r.None? && tasks == old(tasks)
      ensures GetTask(old(tasks), id, userId).Some? ==>
        var i := FindTaskIndex(old(tasks), id, userId).value;
        r == Some(Updated(old(tasks)[i], u, now)) && tasks == old(tasks)[i := r.value]
    {
      var found := FindTaskIndex(tasks, id, userId);
      if found.None? {
        return None;
      }
      var i := found.value;
      var current := tasks[i];
      var row := AssignFields(current, SetFields(u));
      SetAttrsIsPatch(current, u);
      if row != current {
        row := row.(updatedAt := now);
      }
      assert row == Updated(current, u, now);
      UpdatedWellFormed(current, u, now);
      ReplaceKeepsTableValid(tasks, i, row);
      tasks := tasks[i := row];
      r := Some(row);
    }

    /** `delete_task`: removes the row found by id and owner and answers true;
        answers false and changes nothing when there is none. */
    method DeleteTask(id: string, userId: string) returns (deleted: bool)
      requires Valid()
      modifies this
      ensures Valid()
      ensures deleted == GetTask(old(tasks), id, userId).Some?
      ensures !deleted ==> tasks == old(tasks)
      ensures deleted ==>
        var i := FindTaskIndex(old(tasks), id, userId).value;
        tasks == old(tasks)[..i] + old(tasks)[i + 1..]
      ensures GetTask(tasks, id, userId).None?
      ensures forall t :: t in old(tasks) && t.id != id ==> t in tasks
    {
      var found := FindTaskIndex(tasks, id, userId);
      if found.None? {
        return false;
      }
      var i := found.value;
      RemoveAt(tasks, i);
      tasks := tasks[..i] + tasks[i + 1..];
      deleted := true;
    }
  }
}
