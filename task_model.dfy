/** The Task model (app/models/task.rb): its validations and its two
    status scopes. */
module TaskModel {
  import opened Types
  import Query

  const TitleMinLength: nat := 6
  const TitleMaxLength: nat := 100
  const StatusMaxLength: nat := 20

  const TitleBlank := "Title can't be blank"
  const TitleTooShort := "Title is too short (minimum is 6 characters)"
  const TitleTooLong := "Title is too long (maximum is 100 characters)"
  const StatusBlank := "Status can't be blank"
  const StatusTooLong := "Status is too long (maximum is 20 characters)"
  const ProjectMissing := "Project must exist"

  /** A title the presence and length validations accept. */
  predicate TitleOk(title: string) {
    !Blank(title) && TitleMinLength <= |title| <= TitleMaxLength
  }

  /** A status the presence and length validations accept. */
  predicate StatusOk(status: string) {
    !Blank(status) && |status| <= StatusMaxLength
  }

  /** `errors.full_messages` of a task with these attributes, in the order
      the validations are declared: title, status, then the required
      `belongs_to :project`. `projects` is the set of stored project ids.
      The optional assignee is not validated at all. */
  function TaskErrors(title: string, status: string, project: Option<ProjectId>,
                      projects: set<ProjectId>): (errs: seq<string>)
    ensures TitleBlank in errs <==> Blank(title)
    ensures TitleTooShort in errs <==> |title| < TitleMinLength
    ensures TitleTooLong in errs <==> |title| > TitleMaxLength
    ensures StatusBlank in errs <==> Blank(status)
    ensures StatusTooLong in errs <==> |status| > StatusMaxLength
    ensures ProjectMissing in errs <==> project.None? || project.value !in projects
    ensures errs == [] <==>
              TitleOk(title) && StatusOk(status) && project.Some? && project.value in projects
  {
    When(Blank(title), TitleBlank)
    + When(|title| < TitleMinLength, TitleTooShort)
    + When(|title| > TitleMaxLength, TitleTooLong)
    + When(Blank(status), StatusBlank)
    + When(|status| > StatusMaxLength, StatusTooLong)
    + When(project.None? || project.value !in projects, ProjectMissing)
  }

  /** A non-blank title is accepted exactly when its length is 6 to 100. */
  lemma TitleLengthBounds(title: string, status: string, p: ProjectId, projects: set<ProjectId>)
    requires !Blank(title) && StatusOk(status) && p in projects
    ensures TaskErrors(title, status, Some(p), projects) == [] <==> 6 <= |title| <= 100
    ensures |title| == 5 || |title| == 101 ==> TaskErrors(title, status, Some(p), projects) != []
  {
  }

  /** A task built without a project never validates. */
  lemma NoProjectIsInvalid(title: string, status: string, projects: set<ProjectId>)
    ensures ProjectMissing in TaskErrors(title, status, None, projects)
  {
  }

  /** Rows in ascending id order are as many as their ids. */
  lemma CountByIds(rows: seq<Task>, ids: set<TaskId>)
    requires IdsIncreasing(rows)
    requires forall i :: 0 <= i < |rows| ==> rows[i].id in ids
    requires forall id :: id in ids ==> exists i :: 0 <= i < |rows| && rows[i].id == id
    ensures |rows| == |ids|
  {
    var ks := seq(|rows|, i requires 0 <= i < |rows| => rows[i].id);
    assert Query.Distinct(ks) by {
      forall i, j | 0 <= i < j < |ks| ensures ks[i] != ks[j] {
        assert rows[i].id < rows[j].id;
      }
    }
    Query.DistinctCard(ks);
    assert (set k | k in ks) == ids by {
      forall id | id in ids ensures id in ks {
        var i :| 0 <= i < |rows| && rows[i].id == id;
        assert ks[i] == id;
      }
    }
  }

  /** The scope `by_status(s)`: the tasks whose status is `s`, in their order. */
  function ByStatus(ts: seq<Task>, s: string): (r: seq<Task>)
    ensures forall t :: t in r <==> t in ts && t.status == s
    ensures |r| <= |ts|
    ensures IdsIncreasing(ts) ==> IdsIncreasing(r)
  {
    if ts == [] then []
    else
      assert ts == [ts[0]] + ts[1..];
      var rest := ByStatus(ts[1..], s);
      assert forall t :: t in rest ==> t in ts[1..];
      if ts[0].status == s then
        assert IdsIncreasing(ts) ==> IdsIncreasing([ts[0]] + rest) by {
          if IdsIncreasing(ts) {
            assert IdsIncreasing(ts[1..]) by { KeepHead(ts, []); }
            KeepHead(ts, rest);
          }
        }
        [ts[0]] + rest
      else rest
  }

  /** The scope `pending`, declared on its own as `where(status: "pending")`. */
  function Pending(ts: seq<Task>): (r: seq<Task>)
    ensures forall t :: t in r <==> t in ts && t.status == "pending"
  {
    if ts == [] then []
    else if ts[0].status == "pending" then [ts[0]] + Pending(ts[1..])
    else Pending(ts[1..])
  }

  /** `pending` is `by_status("pending")`. */
  lemma {:induction false} PendingIsByStatus(ts: seq<Task>)
    ensures Pending(ts) == ByStatus(ts, "pending")
  {
    if ts != [] {
      PendingIsByStatus(ts[1..]);
    }
  }
}
