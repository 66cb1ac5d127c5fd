# Task manager API: authorisation and membership model

A Dafny model of the API v1 of a Rails project/task manager. It covers:
- who may see, change and delete projects, memberships, tasks and user profiles.
- the validations the ActiveRecord models declare.
- the rows a deletion takes with it.

One `Store` class (module `Api`, store.dfy) holds four tables:
- users, projects and tasks, as maps from id to record;
- the membership rows, as a set of `(user, project)` pairs.

There is one member per controller action. Each takes the authenticated user as an explicit `actor` argument, standing in for `@current_user`. Each returns a `Reply`: the HTTP status and the message or record the action renders.
- Actions that write the store are methods. Their postconditions give the whole new store in terms of the old one and keep the invariant `Valid()`. That invariant says every foreign key the migrations declare points at a stored row. Every method also keeps `OwnersKept()`: no project's owner ever changes.
- Read-only actions (the project, task and user indexes, both `show` actions and `set_project`) are functions of the store.

The validations and scopes of the models are pure functions, one module per model file:
- `TaskModel` (task_model.dfy)
- `UserModel` (user_model.dfy)
- `ProjectModel` (project_model.dfy)
- `MembershipModel` (membership_model.dfy)

Each returns the `errors.full_messages` list, in declaration order. Its postconditions say which condition each message stands for. Offset paging is in `Paging` (paging.dfy), and reading a table in id order is in `Query` (query.dfy).

Modelling conventions:
- A request parameter is an `Option`. `None` is a key the request does not carry. A `nil` attribute and an empty string are the same value to every validation here, so attributes are plain strings.
- Replies the framework renders from an exception have an empty body (`NoBody`). These are `RecordNotFound` (404) and database constraint errors (`ServerError`).
- A `save!` or `update!` that fails raises `RecordInvalid` (422). The action renders nothing itself; the model keeps the record's `errors.full_messages` as the body `Errors`.
- Paging follows Kaminari's `page(p).per(n)`:
  - `per_page` defaults to 3; a negative one keeps Kaminari's default of 25; 0 makes the meta raise `ZeroPerPageOperation`, which is `None` here.
  - A page below 1, or no page, is page 1.
  - A page holds rows `[(p-1)*n, p*n)`, and `total_pages` is `ceil(total_count / n)`.
  - The queries have no `ORDER BY`, so rows are assumed to come back in ascending id order.

Where the code as written differs from the request specs, the model follows the code:
- Invitations name a user id, not an email.
- The owner may invite themself.
- There is no self-leave and no members list.
- Any authenticated user's own tasks are theirs to update or delete: the tasks controller checks no project ownership or assignment.
- Users#update has no admin branch, because `User` declares no `admin?`.

The projects controller calls `@current_user.projects` and `joined_projects`, which `User` does not declare. They are modelled as the projects the actor owns and the projects for which the actor holds a membership row.

`destroy_me` cascades to the actor's tasks only. `projects.user_id` and `project_memberships.user_id` are foreign keys without a cascade (db/migrate/20250312100951_create_projects.rb:5, db/migrate/20250312102920_create_project_memberships.rb:4). So a user who owns a project or holds a membership row cannot be deleted: the transaction rolls back, and the model returns `ServerError` with the store unchanged.

## Model

| member | source | states |
|---|---|---|
| `Api.Store.Invite` | app/controllers/api/v1/project_memberships_controller.rb:4-17 | These guards run in order, each returning its literal message with the store unchanged: unknown project → 404 "Project not found"; actor not the owner → 403 "Only the project owner can invite users", before the user lookup; unknown user → 404 "User not found"; already a member → 422 "User is already a member". Otherwise exactly the pair `(uid, pid)` is added and nothing else changes: 200 with the message "User added successfully" and the project. |
| `Api.Store.RemoveMember` | app/controllers/api/v1/project_memberships_controller.rb:19-30 | These guards run in order, each leaving the store unchanged: "Project not found"; non-owner → 403 "Only the project owner can remove users", before the user lookup; "User not found"; not a member → 422 "User is not a member". Otherwise exactly that pair is deleted, and only the tasks of that project assigned to that user lose their assignee (no other field or task changes). No task of the project is left assigned to them. The reply is 200 with the message "User removed successfully" and the project. |
| `Api.InviteThenRemove` | app/controllers/api/v1/project_memberships_controller.rb:13-27 | Inviting and then removing the same user restores the membership rows, leaves users and projects unchanged, and leaves no task of the project assigned to that user. |
| `Api.Store.FindVisible` | app/controllers/api/v1/projects_controller.rb:52-55 | A project is found exactly when it exists and the actor owns it or holds a membership row for it; the found project is the stored one. |
| `Api.Store.ProjectsIndex` | app/controllers/api/v1/projects_controller.rb:4-17 | Type "owned" gives exactly the projects whose owner is the actor. Type "joined" gives exactly those with an `(actor, p)` membership row. Any other or absent type gives exactly the projects `set_project` would find, which is owned plus joined, each once. |
| `Api.Store.ShowProject` | app/controllers/api/v1/projects_controller.rb:20-22 | 200 with the project exactly when it is visible to the actor; otherwise 404 "Project not found or access denied". |
| `Api.Store.CreateProject` | app/controllers/api/v1/projects_controller.rb:24-31 | With a name: a new project with a fresh id, that name and the actor as owner is added (201), and nothing else changes. Without one: the NOT NULL on `projects.name` fails, and the store is unchanged. |
| `Api.Store.UpdateProject` | app/controllers/api/v1/projects_controller.rb:33-41 | Invisible → 404 "Project not found or access denied"; visible non-owner → 403 "Only the project owner can update"; in both cases nothing changes. The owner changes only the project's name; the owner `user_id` is kept. |
| `Api.Store.DestroyProject` | app/controllers/api/v1/projects_controller.rb:43-48 | Invisible → 404; visible non-owner → 403 "Only the project owner can delete"; in both, nothing changes. The owner's delete (204) removes the project, and exactly its membership rows and its tasks (`dependent: :destroy`, app/models/project.rb:3-5). Other projects, memberships and tasks keep their values. |
| `Api.Store.UsersIndex` | app/controllers/api/v1/users_controller.rb:5-15 | The page is exactly the users at positions `[(page-1)*per_page, page*per_page)` of the table in id order, so at most `per_page` (default 3) stored users. The meta has `total_count` = the number of users, `total_pages` = ceil(total_count / per_page) and `current_page` = the requested page (1 by default). A page size of 0 raises. |
| `Api.Store.UpdateUser` | app/controllers/api/v1/users_controller.rb:22-33 | Unknown id → 404, unchanged. Actor not the target → 403 "You are not authorized to update this user", unchanged. Otherwise the permitted fields are assigned and validated: invalid → 422 with the messages, unchanged; valid → only that user's name, email and password change, and the reply carries the user's id, name and email. Email uniqueness across users is preserved. |
| `Api.Assign` | app/controllers/api/v1/users_controller.rb:56 | An update assigns only name, email and password, each only when given; gender and id are kept; an empty password is ignored. |
| `Api.Store.DestroyMe` | app/controllers/api/v1/users_controller.rb:38-41 | If the actor owns a project or holds a membership row, the foreign keys reject the delete and nothing changes. Otherwise exactly the actor is removed, with exactly their tasks (`dependent: :destroy`). Other users, projects and memberships are unchanged. |
| `Api.Store.ActorTasks` | app/controllers/api/v1/tasks_controller.rb:6-7 | Exactly the actor's tasks, narrowed to the given status only when the status parameter is present (non-blank), in ascending id order. |
| `Api.Store.ActorTasksCount` | app/controllers/api/v1/tasks_controller.rb:15 | The filtered list has one entry per listed task id, so `total_count` counts the filtered tasks, not the page. |
| `Api.Store.TasksIndex` | app/controllers/api/v1/tasks_controller.rb:5-18 | Every returned task is a stored task of the actor, with the requested status when one is present. The page is exactly the slice `[(page-1)*per_page, page*per_page)` of the filtered tasks in id order, so it holds at most `per_page` tasks (default 3). `total_count` is the number of the actor's tasks that pass the filter, and `total_pages` is ceil(total_count / per_page) over that same filtered count. A page size of 0 raises. |
| `Api.Store.TasksLastPage` | app/controllers/api/v1/tasks_controller.rb:8-15 | Asking the tasks index for page `total_pages` of a non-empty filtered list gives that last page, with `total_count mod per_page` tasks, or `per_page` when it divides the count. |
| `Api.Store.ShowTask` | app/controllers/api/v1/tasks_controller.rb:44-46 | A task is found only if its `user_id` is the actor; any other id gives 404. |
| `Api.Store.SaveNewTask` | app/controllers/api/v1/tasks_controller.rb:27-28 | `build` + `save!`: if the task's validations fail, 422 with their messages and nothing inserted. Otherwise one new task with a fresh id, `user_id` = actor and no assignee is inserted (201). |
| `Api.Store.CreateTask` | app/controllers/api/v1/tasks_controller.rb:26-30 | As written, every request fails with 422 including "Project must exist", and the store is unchanged. |
| `Api.Store.CreateTaskInProject` | app/controllers/api/v1/tasks_controller.rb:26-30 | Corrected create: 201 exactly when the title and status are valid and the route's project exists. The new task has the requested title and status, belongs to the actor and that project, and has no assignee. It is stored under a fresh id, and nothing else in the store changes apart from the task id sequence. Otherwise 422 with the store unchanged. |
| `Api.Store.UpdateTask` | app/controllers/api/v1/tasks_controller.rb:32-35 | Another user's task → 404, unchanged. Otherwise only `title` and `status` are assigned (project, assignee and user kept). An invalid result → 422 with the messages and the task unchanged; a valid one replaces just that task. |
| `Api.Store.DestroyTask` | app/controllers/api/v1/tasks_controller.rb:37-40 | Another user's task → 404, unchanged. Otherwise exactly that task is removed (204). |
| `TaskModel.TaskErrors` | app/models/task.rb:2-6 | Each message appears exactly when its rule fails: a blank title; a title under 6 or over 100 characters; a blank status; a status over 20 characters; no stored project. No errors exactly when all hold. The assignee is not validated at all. |
| `TaskModel.TitleLengthBounds` | app/models/task.rb:2 | A non-blank title is accepted exactly at lengths 6 to 100; lengths 5 and 101 are rejected. |
| `TaskModel.NoProjectIsInvalid` | app/models/task.rb:6 | A task without a project gets "Project must exist". |
| `TaskModel.ByStatus` | app/models/task.rb:8 | `by_status(s)` keeps exactly the tasks of its input whose status is `s`. It is no longer than its input and keeps id order. |
| `TaskModel.Pending` | app/models/task.rb:10 | `pending` keeps exactly the tasks whose status is "pending". |
| `TaskModel.PendingIsByStatus` | app/models/task.rb:8-10 | `pending` equals `by_status("pending")` on every list of tasks. |
| `UserModel.UserErrors` | app/models/user.rb:3-7 | Each message appears exactly when its rule fails: no stored credential; a confirmation that differs from a password assigned in this save; a blank name; an email another user has ("Email has already been taken"); an email the format check refuses; a gender other than "male" or "female". No errors exactly when all hold. |
| `UserModel.OtherEmails` | app/models/user.rb:6 | The emails the uniqueness check compares against are exactly those of the other users. |
| `UserModel.TasksOf` | app/models/user.rb:2 | `user.tasks` keeps exactly the tasks whose `user_id` is the user, in id order. |
| `ProjectModel.Members` | app/models/project.rb:4 | `members(P)` is exactly the set of users holding a membership row for P. |
| `ProjectModel.Owned` | app/controllers/api/v1/projects_controller.rb:7 | Exactly the stored projects whose owner is the actor. |
| `ProjectModel.Joined` | app/controllers/api/v1/projects_controller.rb:9 | Exactly the stored projects whose members include the actor. |
| `MembershipModel.MembershipErrors` | app/models/project_membership.rb:2-5 | A row is refused with "User must exist", "Project must exist" or "User is already a member of this project" exactly when its user is missing, its project is missing, or its pair is already stored. |
| `MembershipModel.UniquenessIsPerPair` | app/models/project_membership.rb:5 | Beside `(u, p)`, the rows `(u, q)` and `(v, p)` are accepted, and `(u, p)` itself is refused: one user may join many projects, and one project may have many members. |
| `Paging.PerPage` | app/controllers/api/v1/users_controller.rb:6 | The page size is 3 without a parameter, the parameter itself when it is not negative, and Kaminari's 25 when it is negative. |
| `Paging.PageIndex` | app/controllers/api/v1/tasks_controller.rb:8 | The page is the requested one, or the first page without a parameter or below 1. |
| `Paging.CeilDiv` | app/controllers/api/v1/users_controller.rb:11 | `total_pages` is the least page count whose pages hold every row. |
| `Paging.Paginate` | app/controllers/api/v1/tasks_controller.rb:8-15 | On a page size of 0 the meta raises. Otherwise the page is exactly the slice of rows `[(page-1)*per, page*per)` (cut at the end of the rows), so it has at most `per` rows. `total_count` is the number of rows, `current_page` the requested page and `total_pages` the ceiling of count/per. |
| `Paging.AllPagesAreRows` | app/controllers/api/v1/users_controller.rb:6-14 | Pages 1 to `total_pages`, read in turn, return every row exactly once, in order. |
| `Paging.LastPage` | app/controllers/api/v1/tasks_controller.rb:8-14 | The last page holds `total_count mod per` rows, or `per` when `per` divides the count. |
| `Paging.PastLastPage` | app/controllers/api/v1/users_controller.rb:6-11 | Every page after `total_pages` is empty. |
| `Query.KeysBelowCount` | app/controllers/api/v1/users_controller.rb:12 | Reading the ids below the id sequence yields one row per stored id. |
| `Query.AllKeysBelow` | app/controllers/api/v1/users_controller.rb:6 | Reading a table whose ids all lie below its sequence returns as many rows as the table holds. |

## Left out

- Authentication: token decoding (JWT), `authenticate_request` and the "Unauthorized" replies are outside the model. Each action takes the authenticated user as `actor` and requires that user to be stored. The `unless @current_user` branch of users#update (app/controllers/api/v1/users_controller.rb:23-25) cannot fire after authentication and is not modelled.
- Registration, login and logout (the authentication controller) are not part of this model. The store is built from a given users table.
- Rendered records: the `created_at` and `updated_at` columns are not modelled. So the users#update reply carries `id`, `name` and `email` only, and a rendered project or task carries no timestamps.
- Password hashing: bcrypt is not modelled. `password` holds the credential as given, standing for `password_digest`. The 72-byte password limit of `has_secure_password` is not modelled.
- Email format: `URI::MailTo::EMAIL_REGEXP` is a library constant. It appears as the argument `wellFormed`.
- users#show and users#profile render one stored row and check nothing, so they are not modelled.
- Kaminari itself: the paging arithmetic is stated as the assumption above. Non-numeric parameters and `max_per_page` are not modelled.
- `Api.Store.ProjectsIndex`: it returns a set of project ids. Row order and the rendering of each project are not modelled.
- `Api.Store.TasksIndex`: it assumes rows come in ascending id order (so does `Api.Store.UsersIndex`). The queries carry no `ORDER BY`, so the real order is up to the database.
- JSON `null` parameters are not distinguished from absent keys. A null project name (a database error) and a null password (which clears the digest) are therefore not modelled. Neither is `params.require` failing on a missing root key (400).
- `blank?` is modelled on ASCII white space only; Ruby also counts other Unicode space characters.
- The `errors` branch of projects#update (:38-39) cannot fire: Project's only validation is its required owner, and the owner is always stored.
- Deleting a user leaves tasks of other users that name them as assignee unchanged. None of the migrations adds `tasks.assignee_id` or a constraint on it.
- The legacy controllers (app/controllers/tasks_controller.rb, app/controllers/users_controller.rb), routing, Swagger/Grape and environment configuration are not modelled. So are the actions that config/routes.rb declares but no controller defines: members `index` and `leave`, `projects#owned` and `projects#joined`, and `tasks#my_tasks`. Conversely, `projects#index` is modelled although config/routes.rb:26 routes no index to it.
- Behaviour that only the request specs describe is not modelled, because the controllers do not implement it:
  - invite by email;
  - refusing a self-invite;
  - self-leave;
  - the "was removed from the project" message;
  - the members list;
  - owner/assignee rules on tasks.
- The data backfill of db/migrate/20250312101050_add_project_to_tasks.rb:5-6, the `with_user` scope and the commentary of app/models/task.rb are not modelled.
- Concurrency: actions run one at a time. The race two simultaneous invites could run against the unique index is not modelled.

## Findings

| source | as written | input that shows it | evidently intended | confidence | as-written member | corrected member |
|---|---|---|---|---|---|---|
| app/controllers/api/v1/tasks_controller.rb:27 | `create` builds the task from `task_params`, which permits only `title` and `status` (:50). `project_id` is never set, so the required `belongs_to :project` (app/models/task.rb:6) fails and `save!` raises every time | POST /api/v1/projects/1/tasks with title "Valid Task Name", status "pending", on an existing project 1: 422 "Project must exist" instead of 201 | the task also takes the nested route's `params[:project_id]` and is created when its title, status and project are valid | not executed; high | `Api.Store.CreateTask` | `Api.Store.CreateTaskInProject` |
