/** Records of the task-manager store and the shape of every reply an API v1
    action renders. Database rows are values; the store that holds them is
    the class in store.dfy. */
module Types {

  type UserId = nat
  type ProjectId = nat
  type TaskId = nat

  datatype Option<T> = None | Some(value: T) {
    function GetOr(default: T): T {
      match this
      case Some(v) => v
      case None => default
    }
  }

  /** A row of `users`. `password` stands for the stored credential
      (`password_digest`); the empty string means no digest is set. */
  datatype User = User(id: UserId, name: string, email: string, gender: string, password: string)

  /** A row of `projects`; `owner` is the `user_id` column. */
  datatype Project = Project(id: ProjectId, name: string, owner: UserId)

  /** A row of `project_memberships`, identified by its pair. */
  datatype Membership = Membership(user: UserId, project: ProjectId)

  /** A row of `tasks`: `user` is the creating user's `user_id`,
      `assignee` the optional `assignee_id`. */
  datatype Task = Task(id: TaskId, title: string, status: string, user: UserId,
                       project: ProjectId, assignee: Option<UserId>)

  /** HTTP status of a reply. `ServerError` is an exception the framework
      does not map to a client error (a database constraint, for one). */
  datatype Status = Ok | Created | NoContent | Forbidden | NotFound | Unprocessable | ServerError

  /** JSON body of a reply: `{message: .., project: ..}`, `{error: ..}`,
      the `errors` of an invalid record, one rendered record, the profile
      fields users#update selects (`id`, `name`, `email`), or nothing
      (`head` replies and replies rendered by the framework from an
      exception). */
  datatype Body =
    | NoBody
    | Message(text: string, project: Project)
    | Error(text: string)
    | Errors(texts: seq<string>)
    | ProjectBody(project: Project)
    | TaskBody(task: Task)
    | ProfileBody(id: UserId, name: string, email: string)

  datatype Reply = Reply(status: Status, body: Body)

  /** Characters Ruby's `blank?` treats as white space (the ASCII ones). */
  predicate IsSpace(c: char) {
    c == ' ' || ('\t' <= c <= '\r')
  }

  /** `blank?` on a string: empty or white space only. */
  predicate Blank(s: string) {
    forall i :: 0 <= i < |s| ==> IsSpace(s[i])
  }

  /** The one message a failed validation adds, or none. */
  function When(c: bool, message: string): seq<string> {
    if c then [message] else []
  }

  /** Task rows listed in ascending id order. */
  ghost predicate IdsIncreasing(ts: seq<Task>) {
    forall i, j :: 0 <= i < j < |ts| ==> ts[i].id < ts[j].id
  }

  /** Keeping the head of an id-ordered list in front of rows picked, in
      order, from its tail keeps the order. */
  lemma KeepHead(ts: seq<Task>, rest: seq<Task>)
    requires ts != [] && IdsIncreasing(ts) && IdsIncreasing(rest)
    requires forall t :: t in rest ==> t in ts[1..]
    ensures IdsIncreasing(ts[1..])
    ensures IdsIncreasing([ts[0]] + rest)
  {
    var r := [ts[0]] + rest;
    forall i, j | 0 <= i < j < |r| ensures r[i].id < r[j].id {
      if i == 0 {
        assert r[j] == rest[j - 1] && rest[j - 1] in ts[1..];
        var k :| 0 <= k < |ts[1..]| && ts[1..][k] == rest[j - 1];
        assert ts[k + 1] == r[j];
      } else {
        assert r[i] == rest[i - 1] && r[j] == rest[j - 1];
      }
    }
  }
}
