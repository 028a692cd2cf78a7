/** The two tables: `users` and `tasks`, their column defaults, the uniqueness
    constraints on users, the `tasks.user_id -> users.id` reference and the
    cascade from a user to their tasks. */
module Models {
  import opened Wrappers
  import Seqs
  import Security

  type Time = Security.Time

  /** A row of `tasks`. `description` is nullable; `priority` is 0 (low),
      1 (medium) or 2 (high) once validated. */
  datatype Task = Task(
    id: string,
    title: string,
    description: Option<string>,
    completed: bool,
    priority: int,
    userId: string,
    createdAt: Time,
    updatedAt: Time)

  /** A row of `users`; this is the `UserInDB` shape, the only one carrying the hash. */
  datatype User = User(
    id: string,
    email: string,
    username: string,
    hashedPassword: Security.PasswordHash,
    isActive: bool,
    createdAt: Time)

  /** Inserting a task row: the caller supplies the id (a fresh UUID) and the
      clock; `completed` and `priority` fall back to their column defaults. */
  function NewTask(id: string, title: string, description: Option<string>,
                   completed: Option<bool>, priority: Option<int>, userId: string, now: Time): (t: Task)
    ensures t.id == id && t.userId == userId && t.title == title && t.description == description
    ensures t.completed == completed.GetOr(false) && t.priority == priority.GetOr(0)
    ensures t.createdAt == now && t.updatedAt == now
  {
    Task(id, title, description, completed.GetOr(false), priority.GetOr(0), userId, now, now)
  }

  /** Inserting a user row: `is_active` takes its default, true. */
  function NewUser(id: string, email: string, username: string,
                   hashed: Security.PasswordHash, now: Time): (u: User)
    ensures u.isActive
    ensures u.id == id && u.email == email && u.username == username
    ensures u.hashedPassword == hashed && u.createdAt == now
  {
    User(id, email, username, hashed, true, now)
  }

  // ------------------------------------------------------------- constraints

  ghost predicate UniqueUserIds(users: seq<User>)
  {
    forall i, j :: 0 <= i < j < |users| ==> users[i].id != users[j].id
  }

  /** `email` is declared `unique=True`. */
  ghost predicate UniqueEmails(users: seq<User>)
  {
    forall i, j :: 0 <= i < j < |users| ==> users[i].email != users[j].email
  }

  /** `username` is declared `unique=True`. */
  ghost predicate UniqueUsernames(users: seq<User>)
  {
    forall i, j :: 0 <= i < j < |users| ==> users[i].username != users[j].username
  }

  ghost predicate ValidUsers(users: seq<User>)
  {
    UniqueUserIds(users) && UniqueEmails(users) && UniqueUsernames(users)
  }

  /** `tasks.id` is the primary key. */
  ghost predicate UniqueTaskIds(tasks: seq<Task>)
  {
    forall i, j :: 0 <= i < j < |tasks| ==> tasks[i].id != tasks[j].id
  }

  /** Every task's `user_id` names an existing user (the foreign key). */
  ghost predicate OwnersExist(users: seq<User>, tasks: seq<Task>)
  {
    forall t :: t in tasks ==> exists u :: u in users && u.id == t.userId
  }

  // ------------------------------------------------------------------ cascade

  function NotUser(id: string): User -> bool
  {
    (u: User) => u.id != id
  }

  function NotOwnedBy(id: string): Task -> bool
  {
    (t: Task) => t.userId != id
  }

  /** Deleting a user row; `cascade="all, delete-orphan"` deletes their tasks too. */
  function DeleteUserCascade(users: seq<User>, tasks: seq<Task>, id: string): (r: (seq<User>, seq<Task>))
    ensures forall u :: u in r.0 <==> u in users && u.id != id
    ensures forall t :: t in r.1 <==> t in tasks && t.userId != id
  {
    (Seqs.Filter(users, NotUser(id)), Seqs.Filter(tasks, NotOwnedBy(id)))
  }

  /** The cascade keeps the foreign key intact: no task is left pointing at the
      deleted user, and the other tasks' owners are all still there. */
  lemma CascadeKeepsOwnersExisting(users: seq<User>, tasks: seq<Task>, id: string)
    requires OwnersExist(users, tasks)
    ensures OwnersExist(DeleteUserCascade(users, tasks, id).0, DeleteUserCascade(users, tasks, id).1)
  {
    var (us, ts) := DeleteUserCascade(users, tasks, id);
    forall t | t in ts
      ensures exists u :: u in us && u.id == t.userId
    {
      var u :| u in users && u.id == t.userId;
      assert u in us;
    }
  }
}
