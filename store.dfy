/** The API v1 controllers over one in-memory store. Every action takes the
    authenticated user as `actor` (what `@current_user` holds once
    `authenticate_request` has run) and returns the reply it renders. The
    read-only actions are functions of the store; the actions that write
    are methods. */
module Api {
  import opened Types
  import opened Query
  import opened Paging
  import TaskModel
  import UserModel
  import ProjectModel
  import MembershipModel

  const ProjectNotFound := "Project not found"
  const OnlyOwnerInvites := "Only the project owner can invite users"
  const UserNotFound := "User not found"
  const AlreadyMember := "User is already a member"
  const UserAdded := "User added successfully"
  const OnlyOwnerRemoves := "Only the project owner can remove users"
  const NotAMember := "User is not a member"
  const UserRemoved := "User removed successfully"
  const ProjectNotVisible := "Project not found or access denied"
  const OnlyOwnerUpdates := "Only the project owner can update"
  const OnlyOwnerDeletes := "Only the project owner can delete"
  const NotAuthorizedForUser := "You are not authorized to update this user"

  /** The whole content of a store, to say what an action leaves unchanged. */
  datatype Tables = Tables(users: map<UserId, User>, projects: map<ProjectId, Project>,
                           memberships: set<Membership>, tasks: map<TaskId, Task>,
                           nextUserId: nat, nextProjectId: nat, nextTaskId: nat)

  /** The permitted `user` parameters of a profile update; None is a key
      the request does not carry. */
  datatype UserParams = UserParams(name: Option<string>, email: Option<string>,
                                   password: Option<string>, passwordConfirmation: Option<string>)

  /** The status filter of the tasks index applies only to a present
      (non-blank) `status` parameter. */
  predicate StatusGiven(status: Option<string>) {
    status.Some? && !Blank(status.value)
  }

  /** A task the tasks index lists for `actor` under a status parameter. */
  predicate Listed(t: Task, actor: UserId, status: Option<string>) {
    t.user == actor && (StatusGiven(status) ==> t.status == status.value)
  }

  /** The user record after `update` assigns the permitted parameters. An
      empty password is ignored by `password=`. */
  function Assign(u: User, params: UserParams): (r: User)
    ensures r.id == u.id && r.gender == u.gender
    ensures r.name == params.name.GetOr(u.name) && r.email == params.email.GetOr(u.email)
    ensures r.password == (if NewPassword(params).Some? then NewPassword(params).value else u.password)
  {
    u.(name := params.name.GetOr(u.name),
       email := params.email.GetOr(u.email),
       password := if NewPassword(params).Some? then NewPassword(params).value else u.password)
  }

  /** The password an update really assigns. */
  function NewPassword(params: UserParams): Option<string> {
    if params.password.Some? && params.password.value != "" then params.password else None
  }

  class Store {
    var users: map<UserId, User>
    var projects: map<ProjectId, Project>
    var memberships: set<Membership>
    var tasks: map<TaskId, Task>
    /** The next id each table's primary-key sequence hands out. */
    var nextUserId: nat
    var nextProjectId: nat
    var nextTaskId: nat

    ghost function Snapshot(): Tables
      reads this
    {
      Tables(users, projects, memberships, tasks, nextUserId, nextProjectId, nextTaskId)
    }

    /** Keys match record ids and lie below their sequence; every foreign
        key the migrations declare points at a stored row: a project's
        owner, a membership's user and project, a task's user and project. */
    ghost predicate Valid()
      reads this
    {
      && (forall id :: id in users ==> users[id].id == id && id < nextUserId)
      && (forall id :: id in projects ==>
            projects[id].id == id && id < nextProjectId && projects[id].owner in users)
      && (forall m :: m in memberships ==> m.user in users && m.project in projects)
      && (forall id :: id in tasks ==>
            tasks[id].id == id && id < nextTaskId &&
            tasks[id].user in users && tasks[id].project in projects)
    }

    /** No project's owner ever changes. */
    twostate predicate OwnersKept()
      reads this
    {
      forall p :: p in old(projects) && p in projects ==> projects[p].owner == old(projects)[p].owner
    }

    /** No two users share an email. */
    ghost predicate EmailsUnique()
      reads this
    {
      forall a, b :: a in users && b in users && a != b ==> users[a].email != users[b].email
    }

    /** A store holding the given users and nothing else. */
    constructor (seed: map<UserId, User>, bound: nat)
      requires forall id :: id in seed ==> seed[id].id == id && id < bound
      ensures Valid()
      ensures Snapshot() == Tables(seed, map[], {}, map[], bound, 0, 0)
    {
      users, projects, memberships, tasks := seed, map[], {}, map[];
      nextUserId, nextProjectId, nextTaskId := bound, 0, 0;
    }

    // ---------------------------------------------------------------
    // ProjectMembershipsController

    /** `create`: the owner adds user `uid` to project `pid`. */
    method Invite(actor: UserId, pid: ProjectId, uid: UserId) returns (reply: Reply)
      requires Valid() && actor in users
      modifies this
      ensures Valid() && OwnersKept()
      ensures pid !in old(projects) ==>
                reply == Reply(NotFound, Error(ProjectNotFound)) && Snapshot() == old(Snapshot())
      ensures pid in old(projects) && old(projects)[pid].owner != actor ==>
                reply == Reply(Forbidden, Error(OnlyOwnerInvites)) && Snapshot() == old(Snapshot())
      ensures pid in old(projects) && old(projects)[pid].owner == actor && uid !in old(users) ==>
                reply == Reply(NotFound, Error(UserNotFound)) && Snapshot() == old(Snapshot())
      ensures pid in old(projects) && old(projects)[pid].owner == actor && uid in old(users) &&
              Membership(uid, pid) in old(memberships) ==>
                reply == Reply(Unprocessable, Error(AlreadyMember)) && Snapshot() == old(Snapshot())
      ensures pid in old(projects) && old(projects)[pid].owner == actor && uid in old(users) &&
              Membership(uid, pid) !in old(memberships) ==>
                && reply == Reply(Ok, Message(UserAdded, old(projects)[pid]))
                && Snapshot() == old(Snapshot()).(memberships := old(memberships) + {Membership(uid, pid)})
    {
      if pid !in projects {
        return Reply(NotFound, Error(ProjectNotFound));
      }
      if projects[pid].owner != actor {
        return Reply(Forbidden, Error(OnlyOwnerInvites));
      }
      if uid !in users {
        return Reply(NotFound, Error(UserNotFound));
      }
      if uid in ProjectModel.Members(memberships, pid) {
        return Reply(Unprocessable, Error(AlreadyMember));
      }
      var m := Membership(uid, pid);
      // `members << user` saves the row; its validations cannot fail here.
      assert MembershipModel.MembershipErrors(m, memberships, users.Keys, projects.Keys) == [];
      memberships := memberships + {m};
      return Reply(Ok, Message(UserAdded, projects[pid]));
    }

    /** `destroy`: the owner removes user `uid` from project `pid`; the
        project's tasks assigned to that user become unassigned. */
    method RemoveMember(actor: UserId, pid: ProjectId, uid: UserId) returns (reply: Reply)
      requires Valid() && actor in users
      modifies this
      ensures Valid() && OwnersKept()
      ensures pid !in old(projects) ==>
                reply == Reply(NotFound, Error(ProjectNotFound)) && Snapshot() == old(Snapshot())
      ensures pid in old(projects) && old(projects)[pid].owner != actor ==>
                reply == Reply(Forbidden, Error(OnlyOwnerRemoves)) && Snapshot() == old(Snapshot())
      ensures pid in old(projects) && old(projects)[pid].owner == actor && uid !in old(users) ==>
                reply == Reply(NotFound, Error(UserNotFound)) && Snapshot() == old(Snapshot())
      ensures pid in old(projects) && old(projects)[pid].owner == actor && uid in old(users) &&
              Membership(uid, pid) !in old(memberships) ==>
                reply == Reply(Unprocessable, Error(NotAMember)) && Snapshot() == old(Snapshot())
      ensures pid in old(projects) && old(projects)[pid].owner == actor && uid in old(users) &&
              Membership(uid, pid) in old(memberships) ==>
                && reply == Reply(Ok, Message(UserRemoved, old(projects)[pid]))
                && users == old(users) && projects == old(projects)
                && nextUserId == old(nextUserId) && nextProjectId == old(nextProjectId)
                && nextTaskId == old(nextTaskId)
                && memberships == old(memberships) - {Membership(uid, pid)}
                && tasks.Keys == old(tasks).Keys
                && (forall id :: id in tasks ==>
                      tasks[id] == if old(tasks)[id].project == pid && old(tasks)[id].assignee == Some(uid)
                                   then old(tasks)[id].(assignee := None) else old(tasks)[id])
                && (forall id :: id in tasks && tasks[id].project == pid ==> tasks[id].assignee != Some(uid))
    {
      if pid !in projects {
        return Reply(NotFound, Error(ProjectNotFound));
      }
      if projects[pid].owner != actor {
        return Reply(Forbidden, Error(OnlyOwnerRemoves));
      }
      if uid !in users {
        return Reply(NotFound, Error(UserNotFound));
      }
      if uid !in ProjectModel.Members(memberships, pid) {
        return Reply(Unprocessable, Error(NotAMember));
      }
      memberships := memberships - {Membership(uid, pid)};
      tasks := map id | id in tasks ::
                 if tasks[id].project == pid && tasks[id].assignee == Some(uid)
                 then tasks[id].(assignee := None) else tasks[id];
      return Reply(Ok, Message(UserRemoved, projects[pid]));
    }

    // ---------------------------------------------------------------
    // ProjectsController

    /** `set_project`: a project the actor owns, or else one they joined. */
    function FindVisible(actor: UserId, pid: ProjectId): (r: Option<Project>)
      reads this
      ensures r.Some? <==>
                pid in projects &&
                (projects[pid].owner == actor || actor in ProjectModel.Members(memberships, pid))
      ensures r.Some? ==> r.value == projects[pid]
    {
      if pid in projects && projects[pid].owner == actor then Some(projects[pid])
      else if pid in ProjectModel.Joined(projects, memberships, actor) then Some(projects[pid])
      else None
    }

    /** `index`: owned projects for type "owned", joined ones for "joined",
        and otherwise both, selected once each. */
    function ProjectsIndex(actor: UserId, kind: Option<string>): (r: set<ProjectId>)
      reads this
      ensures kind == Some("owned") ==>
                forall p :: p in r <==> p in projects && projects[p].owner == actor
      ensures kind == Some("joined") ==>
                forall p :: p in r <==> p in projects && Membership(actor, p) in memberships
      ensures kind != Some("owned") && kind != Some("joined") ==>
                forall p :: p in r <==> FindVisible(actor, p).Some?
    {
      if kind == Some("owned") then ProjectModel.Owned(projects, actor)
      else if kind == Some("joined") then ProjectModel.Joined(projects, memberships, actor)
      else ProjectModel.Owned(projects, actor) + ProjectModel.Joined(projects, memberships, actor)
    }

    /** `show`. */
    function ShowProject(actor: UserId, pid: ProjectId): (reply: Reply)
      reads this
      ensures reply.status == Ok <==> FindVisible(actor, pid).Some?
      ensures reply.status == Ok ==> reply.body == ProjectBody(projects[pid])
      ensures reply.status != Ok ==> reply == Reply(NotFound, Error(ProjectNotVisible))
    {
      match FindVisible(actor, pid)
      case Some(p) => Reply(Ok, ProjectBody(p))
      case None => Reply(NotFound, Error(ProjectNotVisible))
    }

    /** `create`: a project named `name` owned by the actor. Without a name
        the insert breaks the NOT NULL constraint on `projects.name`. */
    method CreateProject(actor: UserId, name: Option<string>) returns (reply: Reply)
      requires Valid() && actor in users
      modifies this
      ensures Valid() && OwnersKept()
      ensures name.None? ==> reply == Reply(ServerError, NoBody) && Snapshot() == old(Snapshot())
      ensures name.Some? ==>
                var p := Project(old(nextProjectId), name.value, actor);
                && p.id !in old(projects)
                && reply == Reply(Created, ProjectBody(p))
                && Snapshot() == old(Snapshot()).(projects := old(projects)[p.id := p],
                                                  nextProjectId := old(nextProjectId) + 1)
    {
      if name.None? {
        return Reply(ServerError, NoBody);
      }
      var p := Project(nextProjectId, name.value, actor);
      projects := projects[p.id := p];
      nextProjectId := nextProjectId + 1;
      return Reply(Created, ProjectBody(p));
    }

    /** `update`: the owner renames a project; nothing else of it changes. */
    method UpdateProject(actor: UserId, pid: ProjectId, name: Option<string>) returns (reply: Reply)
      requires Valid() && actor in users
      modifies this
      ensures Valid() && OwnersKept()
      ensures old(FindVisible(actor, pid)).None? ==>
                reply == Reply(NotFound, Error(ProjectNotVisible)) && Snapshot() == old(Snapshot())
      ensures old(FindVisible(actor, pid)).Some? && old(projects)[pid].owner != actor ==>
                reply == Reply(Forbidden, Error(OnlyOwnerUpdates)) && Snapshot() == old(Snapshot())
      ensures old(FindVisible(actor, pid)).Some? && old(projects)[pid].owner == actor ==>
                var p := old(projects)[pid].(name := name.GetOr(old(projects)[pid].name));
                && reply == Reply(Ok, ProjectBody(p))
                && Snapshot() == old(Snapshot()).(projects := old(projects)[pid := p])
    {
      var found := FindVisible(actor, pid);
      if found.None? {
        return Reply(NotFound, Error(ProjectNotVisible));
      }
      var p := found.value;
      if p.owner != actor {
        return Reply(Forbidden, Error(OnlyOwnerUpdates));
      }
      p := p.(name := name.GetOr(p.name));
      projects := projects[pid := p];
      return Reply(Ok, ProjectBody(p));
    }

    /** `destroy`: the owner deletes a project, its membership rows and its
        tasks (`dependent: :destroy`). */
    method DestroyProject(actor: UserId, pid: ProjectId) returns (reply: Reply)
      requires Valid() && actor in users
      modifies this
      ensures Valid() && OwnersKept()
      ensures old(FindVisible(actor, pid)).None? ==>
                reply == Reply(NotFound, Error(ProjectNotVisible)) && Snapshot() == old(Snapshot())
      ensures old(FindVisible(actor, pid)).Some? && old(projects)[pid].owner != actor ==>
                reply == Reply(Forbidden, Error(OnlyOwnerDeletes)) && Snapshot() == old(Snapshot())
      ensures old(FindVisible(actor, pid)).Some? && old(projects)[pid].owner == actor ==>
                && reply == Reply(NoContent, NoBody)
                && users == old(users)
                && nextUserId == old(nextUserId) && nextProjectId == old(nextProjectId)
                && nextTaskId == old(nextTaskId)
                && projects == old(projects) - {pid}
                && (forall m :: m in memberships <==> m in old(memberships) && m.project != pid)
                && (forall id :: id in tasks <==> id in old(tasks) && old(tasks)[id].project != pid)
                && (forall id :: id in tasks ==> tasks[id] == old(tasks)[id])
    {
      var found := FindVisible(actor, pid);
      if found.None? {
        return Reply(NotFound, Error(ProjectNotVisible));
      }
      if found.value.owner != actor {
        return Reply(Forbidden, Error(OnlyOwnerDeletes));
      }
      memberships := set m | m in memberships && m.project != pid;
      tasks := map id | id in tasks && tasks[id].project != pid :: tasks[id];
      projects := projects - {pid};
      return Reply(NoContent, NoBody);
    }

    // ---------------------------------------------------------------
    // UsersController

    /** `index`: one page of all users. */
    function UsersIndex(page: Option<int>, perPage: Option<int>): (r: Option<Page<User>>)
      reads this
      requires Valid()
      ensures r.None? <==> PerPage(perPage) == 0
      ensures r.Some? ==> r.value.meta.totalCount == |users|
      ensures r.Some? ==> |r.value.items| <= PerPage(perPage)
      ensures r.Some? ==> r.value.meta.currentPage == PageIndex(page) + 1
      ensures r.Some? ==> r.value.meta.totalPages == CeilDiv(|users|, PerPage(perPage))
      ensures r.Some? ==> forall i :: 0 <= i < |r.value.items| ==>
                r.value.items[i].id in users && users[r.value.items[i].id] == r.value.items[i]
      ensures r.Some? ==>
                r.value.items == Slice(Rows(users, KeysBelow(users, nextUserId)), PageIndex(page), PerPage(perPage))
    {
      AllKeysBelow(users, nextUserId);
      Paginate(Rows(users, KeysBelow(users, nextUserId)), page, perPage)
    }

    /** `update`: a user edits their own profile. The administrator branch
        of the guard never applies: User declares no `admin?`. */
    method UpdateUser(actor: UserId, uid: UserId, params: UserParams, wellFormed: string -> bool)
      returns (reply: Reply)
      requires Valid() && actor in users
      modifies this
      ensures Valid() && OwnersKept()
      ensures old(EmailsUnique()) ==> EmailsUnique()
      ensures uid !in old(users) ==> reply == Reply(NotFound, NoBody) && Snapshot() == old(Snapshot())
      ensures uid in old(users) && actor != uid ==>
                reply == Reply(Forbidden, Error(NotAuthorizedForUser)) && Snapshot() == old(Snapshot())
      ensures uid in old(users) && actor == uid ==>
                var u := Assign(old(users)[uid], params);
                var errs := UserModel.UserErrors(u, UserModel.OtherEmails(old(users), uid),
                                                 NewPassword(params), params.passwordConfirmation, wellFormed);
                && (errs != [] ==> reply == Reply(Unprocessable, Errors(errs)) && Snapshot() == old(Snapshot()))
                && (errs == [] ==> reply == Reply(Ok, ProfileBody(u.id, u.name, u.email))
                                   && Snapshot() == old(Snapshot()).(users := old(users)[uid := u]))
    {
      if uid !in users {
        return Reply(NotFound, NoBody);
      }
      if actor != uid {
        return Reply(Forbidden, Error(NotAuthorizedForUser));
      }
      var u := Assign(users[uid], params);
      var errs := UserModel.UserErrors(u, UserModel.OtherEmails(users, uid),
                                       NewPassword(params), params.passwordConfirmation, wellFormed);
      if errs != [] {
        return Reply(Unprocessable, Errors(errs));
      }
      users := users[uid := u];
      return Reply(Ok, ProfileBody(u.id, u.name, u.email));
    }

    /** `destroy_me`: the actor deletes their account and their tasks
        (`dependent: :destroy`). While they own a project or hold a
        membership row, the foreign keys on `projects.user_id` and
        `project_memberships.user_id` reject the delete and the whole
        transaction rolls back. */
    method DestroyMe(actor: UserId) returns (reply: Reply)
      requires Valid() && actor in users
      modifies this
      ensures Valid() && OwnersKept()
      ensures (exists p :: p in old(projects) && old(projects)[p].owner == actor) ||
              (exists m :: m in old(memberships) && m.user == actor) ==>
                reply == Reply(ServerError, NoBody) && Snapshot() == old(Snapshot())
      ensures (forall p :: p in old(projects) ==> old(projects)[p].owner != actor) &&
              (forall m :: m in old(memberships) ==> m.user != actor) ==>
                && reply == Reply(NoContent, NoBody)
                && users == old(users) - {actor}
                && (forall id :: id in tasks <==> id in old(tasks) && old(tasks)[id].user != actor)
                && (forall id :: id in tasks ==> tasks[id] == old(tasks)[id])
                && projects == old(projects) && memberships == old(memberships)
                && nextUserId == old(nextUserId) && nextProjectId == old(nextProjectId)
                && nextTaskId == old(nextTaskId)
    {
      var owned := ProjectModel.Owned(projects, actor);
      var held := set m | m in memberships && m.user == actor;
      if owned != {} || held != {} {
        return Reply(ServerError, NoBody);
      }
      forall m | m in memberships ensures m.user != actor {
        assert m.user == actor ==> m in held;
      }
      tasks := map id | id in tasks && tasks[id].user != actor :: tasks[id];
      users := users - {actor};
      return Reply(NoContent, NoBody);
    }

    // ---------------------------------------------------------------
    // TasksController

    /** Every stored task, in id order. */
    function AllTasks(): (rows: seq<Task>)
      reads this
      requires Valid()
      ensures IdsIncreasing(rows)
      ensures forall i :: 0 <= i < |rows| ==> rows[i].id in tasks && tasks[rows[i].id] == rows[i]
      ensures forall id :: id in tasks ==> tasks[id] in rows
    {
      var ks := KeysBelow(tasks, nextTaskId);
      var rows := Rows(tasks, ks);
      assert forall id :: id in tasks ==> tasks[id] in rows by {
        forall id | id in tasks ensures tasks[id] in rows {
          var i :| 0 <= i < |ks| && ks[i] == id;
          assert rows[i] == tasks[id];
        }
      }
      rows
    }

    /** `@current_user.tasks`, narrowed by a present status parameter, in id order. */
    function ActorTasks(actor: UserId, status: Option<string>): (rows: seq<Task>)
      reads this
      requires Valid()
      ensures IdsIncreasing(rows)
      ensures forall i :: 0 <= i < |rows| ==>
                rows[i].id in tasks && tasks[rows[i].id] == rows[i] && Listed(rows[i], actor, status)
      ensures forall id :: id in tasks && Listed(tasks[id], actor, status) ==> tasks[id] in rows
    {
      var all := AllTasks();
      var mine := UserModel.TasksOf(all, actor);
      var rows := if StatusGiven(status) then TaskModel.ByStatus(mine, status.value) else mine;
      assert IdsIncreasing(rows);
      assert forall t :: t in rows <==> t in all && Listed(t, actor, status) by {
        if StatusGiven(status) {
          assert forall t :: t in rows <==> t in mine && t.status == status.value;
        }
      }
      assert forall i :: 0 <= i < |rows| ==>
               rows[i].id in tasks && tasks[rows[i].id] == rows[i] && Listed(rows[i], actor, status) by {
        forall i | 0 <= i < |rows|
          ensures rows[i].id in tasks && tasks[rows[i].id] == rows[i] && Listed(rows[i], actor, status)
        {
          assert rows[i] in rows;
          var j :| 0 <= j < |all| && all[j] == rows[i];
        }
      }
      assert forall id :: id in tasks && Listed(tasks[id], actor, status) ==> tasks[id] in rows;
      rows
    }

    /** The ids of the tasks the tasks index lists for `actor`. */
    function ListedIds(actor: UserId, status: Option<string>): (r: set<TaskId>)
      reads this
      ensures forall id :: id in r <==> id in tasks && Listed(tasks[id], actor, status)
    {
      set id | id in tasks && Listed(tasks[id], actor, status)
    }

    /** The index counts each listed task once. */
    lemma ActorTasksCount(actor: UserId, status: Option<string>)
      requires Valid()
      ensures |ActorTasks(actor, status)| == |ListedIds(actor, status)|
    {
      var rows := ActorTasks(actor, status);
      var listed := ListedIds(actor, status);
      forall i | 0 <= i < |rows| ensures rows[i].id in listed {
        assert rows[i].id in tasks && Listed(tasks[rows[i].id], actor, status);
      }
      forall id | id in listed ensures exists i :: 0 <= i < |rows| && rows[i].id == id {
        assert tasks[id] in rows;
        var i :| 0 <= i < |rows| && rows[i] == tasks[id];
        assert rows[i].id == tasks[id].id == id;
      }
      TaskModel.CountByIds(rows, listed);
    }

    /** `index`: one page of the actor's tasks, status-filtered when a
        status is given; `total_count` counts the filtered tasks. */
    function TasksIndex(actor: UserId, status: Option<string>, page: Option<int>, perPage: Option<int>)
      : (r: Option<Page<Task>>)
      reads this
      requires Valid()
      ensures r.None? <==> PerPage(perPage) == 0
      ensures r.Some? ==> |r.value.items| <= PerPage(perPage)
      ensures r.Some? ==> forall i :: 0 <= i < |r.value.items| ==>
                var t := r.value.items[i];
                t.id in tasks && tasks[t.id] == t && t.user == actor &&
                (StatusGiven(status) ==> t.status == status.value)
      ensures r.Some? ==>
                r.value.meta.totalCount == |ListedIds(actor, status)|
      ensures r.Some? ==>
                r.value.meta.totalPages == CeilDiv(|ListedIds(actor, status)|, PerPage(perPage))
      ensures r.Some? ==> r.value.meta.currentPage == PageIndex(page) + 1
      ensures r.Some? ==> r.value.items == Slice(ActorTasks(actor, status), PageIndex(page), PerPage(perPage))
    {
      var rows := ActorTasks(actor, status);
      ActorTasksCount(actor, status);
      var r := Paginate(rows, page, perPage);
      assert r.Some? ==> r.value.meta.totalCount == |rows| == |ListedIds(actor, status)|;
      r
    }

    /** The last page the tasks index reports holds the filtered count
        modulo the page size, or a full page when the size divides it. */
    lemma TasksLastPage(actor: UserId, status: Option<string>, perPage: Option<int>)
      requires Valid()
      requires PerPage(perPage) > 0 && |ListedIds(actor, status)| > 0
      ensures var per, n := PerPage(perPage), |ListedIds(actor, status)|;
              var r := TasksIndex(actor, status, Some(CeilDiv(n, per)), perPage);
              r.Some? && r.value.meta.currentPage == r.value.meta.totalPages &&
              |r.value.items| == (if n % per == 0 then per else n % per)
    {
      var per, n := PerPage(perPage), |ListedIds(actor, status)|;
      var rows := ActorTasks(actor, status);
      ActorTasksCount(actor, status);
      var q := CeilDiv(n, per);
      assert PageIndex(Some(q)) == q - 1;
      LastPage(rows, per);
      var r := TasksIndex(actor, status, Some(q), perPage);
      assert r.value.items == Slice(rows, q - 1, per);
      assert r.value.meta.totalPages == q;
    }

    /** `show`: only a task of the actor's own is found. */
    function ShowTask(actor: UserId, tid: TaskId): (reply: Reply)
      reads this
      ensures tid in tasks && tasks[tid].user == actor ==> reply == Reply(Ok, TaskBody(tasks[tid]))
      ensures !(tid in tasks && tasks[tid].user == actor) ==> reply == Reply(NotFound, NoBody)
    {
      if tid in tasks && tasks[tid].user == actor then Reply(Ok, TaskBody(tasks[tid]))
      else Reply(NotFound, NoBody)
    }

    /** `@current_user.tasks.build(attributes).save!`: a task of the actor
        with the given title, status and project, and no assignee. */
    method SaveNewTask(actor: UserId, title: Option<string>, status: Option<string>,
                       project: Option<ProjectId>) returns (reply: Reply)
      requires Valid() && actor in users
      modifies this
      ensures Valid() && OwnersKept()
      ensures var errs := TaskModel.TaskErrors(title.GetOr(""), status.GetOr(""), project, old(projects).Keys);
              && (errs != [] ==> reply == Reply(Unprocessable, Errors(errs)) && Snapshot() == old(Snapshot()))
              && (errs == [] ==>
                    var t := Task(old(nextTaskId), title.value, status.value, actor, project.value, None);
                    && t.id !in old(tasks)
                    && reply == Reply(Created, TaskBody(t))
                    && Snapshot() == old(Snapshot()).(tasks := old(tasks)[t.id := t],
                                                      nextTaskId := old(nextTaskId) + 1))
    {
      var errs := TaskModel.TaskErrors(title.GetOr(""), status.GetOr(""), project, projects.Keys);
      if errs != [] {
        return Reply(Unprocessable, Errors(errs));
      }
      var t := Task(nextTaskId, title.value, status.value, actor, project.value, None);
      tasks := tasks[t.id := t];
      nextTaskId := nextTaskId + 1;
      return Reply(Created, TaskBody(t));
    }

    /** `create` as written: the permitted parameters are title and status
        only, so the built task has no project and is never saved. */
    method CreateTask(actor: UserId, title: Option<string>, status: Option<string>) returns (reply: Reply)
      requires Valid() && actor in users
      modifies this
      ensures Valid()
      ensures reply.status == Unprocessable && reply.body.Errors?
      ensures TaskModel.ProjectMissing in reply.body.texts
      ensures Snapshot() == old(Snapshot())
    {
      reply := SaveNewTask(actor, title, status, None);
    }

    /** `create` as evidently intended: the task also takes the project of
        the nested route, `params[:project_id]`. */
    method CreateTaskInProject(actor: UserId, pid: ProjectId, title: Option<string>, status: Option<string>)
      returns (reply: Reply)
      requires Valid() && actor in users
      modifies this
      ensures Valid() && OwnersKept()
      ensures reply.status == Created <==>
                && title.Some? && TaskModel.TitleOk(title.value)
                && status.Some? && TaskModel.StatusOk(status.value)
                && pid in old(projects)
      ensures reply.status == Created ==>
                && reply.body.TaskBody?
                && reply.body.task.title == title.value && reply.body.task.status == status.value
                && reply.body.task.user == actor && reply.body.task.project == pid
                && reply.body.task.assignee == None
                && reply.body.task.id !in old(tasks)
                && Snapshot() == old(Snapshot()).(tasks := old(tasks)[reply.body.task.id := reply.body.task],
                                                  nextTaskId := old(nextTaskId) + 1)
      ensures reply.status != Created ==> reply.status == Unprocessable && Snapshot() == old(Snapshot())
    {
      reply := SaveNewTask(actor, title, status, Some(pid));
    }

    /** `update`: a task of the actor's own takes a new title and status;
        an invalid result is not saved. */
    method UpdateTask(actor: UserId, tid: TaskId, title: Option<string>, status: Option<string>)
      returns (reply: Reply)
      requires Valid() && actor in users
      modifies this
      ensures Valid() && OwnersKept()
      ensures !(tid in old(tasks) && old(tasks)[tid].user == actor) ==>
                reply == Reply(NotFound, NoBody) && Snapshot() == old(Snapshot())
      ensures tid in old(tasks) && old(tasks)[tid].user == actor ==>
                var t := old(tasks)[tid].(title := title.GetOr(old(tasks)[tid].title),
                                          status := status.GetOr(old(tasks)[tid].status));
                var errs := TaskModel.TaskErrors(t.title, t.status, Some(t.project), old(projects).Keys);
                && (errs != [] ==> reply == Reply(Unprocessable, Errors(errs)) && Snapshot() == old(Snapshot()))
                && (errs == [] ==> reply == Reply(Ok, TaskBody(t))
                                   && Snapshot() == old(Snapshot()).(tasks := old(tasks)[tid := t]))
    {
      if !(tid in tasks && tasks[tid].user == actor) {
        return Reply(NotFound, NoBody);
      }
      var t := tasks[tid];
      t := t.(title := title.GetOr(t.title), status := status.GetOr(t.status));
      var errs := TaskModel.TaskErrors(t.title, t.status, Some(t.project), projects.Keys);
      if errs != [] {
        return Reply(Unprocessable, Errors(errs));
      }
      tasks := tasks[tid := t];
      return Reply(Ok, TaskBody(t));
    }

    /** `destroy`: a task of the actor's own is deleted. */
    method DestroyTask(actor: UserId, tid: TaskId) returns (reply: Reply)
      requires Valid() && actor in users
      modifies this
      ensures Valid() && OwnersKept()
      ensures !(tid in old(tasks) && old(tasks)[tid].user == actor) ==>
                reply == Reply(NotFound, NoBody) && Snapshot() == old(Snapshot())
      ensures tid in old(tasks) && old(tasks)[tid].user == actor ==>
                reply == Reply(NoContent, NoBody) && Snapshot() == old(Snapshot()).(tasks := old(tasks) - {tid})
    {
      if !(tid in tasks && tasks[tid].user == actor) {
        return Reply(NotFound, NoBody);
      }
      tasks := tasks - {tid};
      return Reply(NoContent, NoBody);
    }
  }

  /** Inviting a user and then removing them again leaves the membership
      rows as they were, and none of the project's tasks assigned to them. */
  method InviteThenRemove(s: Store, owner: UserId, pid: ProjectId, uid: UserId)
    requires s.Valid() && owner in s.users && uid in s.users
    requires pid in s.projects && s.projects[pid].owner == owner
    requires Membership(uid, pid) !in s.memberships
    modifies s
    ensures s.Valid()
    ensures s.memberships == old(s.memberships)
    ensures s.users == old(s.users) && s.projects == old(s.projects)
    ensures forall id :: id in s.tasks && s.tasks[id].project == pid ==> s.tasks[id].assignee != Some(uid)
  {
    var added := s.Invite(owner, pid, uid);
    assert added == Reply(Ok, Message(UserAdded, s.projects[pid]));
    var removed := s.RemoveMember(owner, pid, uid);
    assert removed == Reply(Ok, Message(UserRemoved, s.projects[pid]));
  }
}
