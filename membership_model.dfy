/** The ProjectMembership model (app/models/project_membership.rb): a row
    belongs to one user and one project, and a pair is stored at most once. */
module MembershipModel {
  import opened Types

  const UserMissing := "User must exist"
  const ProjectMissing := "Project must exist"
  const AlreadyMember := "User is already a member of this project"

  /** `errors.full_messages` on saving the row `m`, in declaration order:
      the two required `belongs_to`, then uniqueness of `user_id` scoped to
      `project_id` among the `existing` rows. */
  function MembershipErrors(m: Membership, existing: set<Membership>,
                            users: set<UserId>, projects: set<ProjectId>): (errs: seq<string>)
    ensures UserMissing in errs <==> m.user !in users
    ensures ProjectMissing in errs <==> m.project !in projects
    ensures AlreadyMember in errs <==> m in existing
    ensures errs == [] <==> m.user in users && m.project in projects && m !in existing
  {
    When(m.user !in users, UserMissing)
    + When(m.project !in projects, ProjectMissing)
    + When(m in existing, AlreadyMember)
  }

  /** Uniqueness is scoped to the pair: beside a row (u, p), a row of the
      same user in another project and a row of another user in the same
      project are both accepted, and only (u, p) itself is refused. */
  lemma UniquenessIsPerPair(u: UserId, v: UserId, p: ProjectId, q: ProjectId,
                            users: set<UserId>, projects: set<ProjectId>)
    requires u in users && v in users && u != v
    requires p in projects && q in projects && p != q
    ensures MembershipErrors(Membership(u, q), {Membership(u, p)}, users, projects) == []
    ensures MembershipErrors(Membership(v, p), {Membership(u, p)}, users, projects) == []
    ensures MembershipErrors(Membership(u, p), {Membership(u, p)}, users, projects) == [AlreadyMember]
  {
  }
}
