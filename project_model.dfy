/** The Project model (app/models/project.rb): the owner relation and the
    members derived through the membership rows. The cascading destroy is
    Store.DestroyProject. */
module ProjectModel {
  import opened Types

  /** `project.members` (`has_many :members, through: :project_memberships`):
      the users holding a membership row for `p`. The owner is in it only
      through a row of their own. */
  function Members(memberships: set<Membership>, p: ProjectId): (r: set<UserId>)
    ensures forall u :: u in r <==> Membership(u, p) in memberships
  {
    set m | m in memberships && m.project == p :: m.user
  }

  /** The projects whose `user_id` is `actor`. */
  function Owned(projects: map<ProjectId, Project>, actor: UserId): (r: set<ProjectId>)
    ensures forall p :: p in r <==> p in projects && projects[p].owner == actor
  {
    set p | p in projects && projects[p].owner == actor
  }

  /** The projects for which `actor` holds a membership row. */
  function Joined(projects: map<ProjectId, Project>, memberships: set<Membership>,
                  actor: UserId): (r: set<ProjectId>)
    ensures forall p :: p in r <==> p in projects && actor in Members(memberships, p)
  {
    set p | p in projects && Membership(actor, p) in memberships
  }
}
