/** The User model (app/models/user.rb): the validations `has_secure_password`
    and the three `validates` lines declare, and the `tasks` association. */
module UserModel {
  import opened Types

  const PasswordBlank := "Password can't be blank"
  const ConfirmationMismatch := "Password confirmation doesn't match Password"
  const NameBlank := "Name can't be blank"
  const EmailTaken := "Email has already been taken"
  const EmailInvalid := "Email is invalid"
  const GenderInvalid := "Gender is not included in the list"

  /** The values the gender inclusion validation lists. */
  predicate GenderOk(gender: string) {
    gender == "male" || gender == "female"
  }

  /** The emails of the stored users other than user `id`: those the
      uniqueness validation compares against. */
  function OtherEmails(users: map<UserId, User>, id: UserId): (r: set<string>)
    ensures forall k :: k in users && k != id ==> users[k].email in r
    ensures forall e :: e in r ==> exists k :: k in users && k != id && users[k].email == e
  {
    set k | k in users && k != id :: users[k].email
  }

  /** A password assigned in this save and a confirmation that differ.
      The confirmation check is skipped when no non-blank password was
      assigned, or when no confirmation was given. */
  predicate ConfirmationDiffers(newPassword: Option<string>, confirmation: Option<string>) {
    newPassword.Some? && !Blank(newPassword.value) && confirmation.Some? && confirmation.value != newPassword.value
  }

  /** `errors.full_messages` on saving `u`, in declaration order:
      `has_secure_password` (a credential must be stored; the confirmation
      must equal the password assigned in this save), name presence, email
      uniqueness among `others` and format, gender inclusion.
      `wellFormed` stands for the URI::MailTo::EMAIL_REGEXP match. */
  function UserErrors(u: User, others: set<string>, newPassword: Option<string>,
                      confirmation: Option<string>, wellFormed: string -> bool): (errs: seq<string>)
    ensures PasswordBlank in errs <==> u.password == ""
    ensures ConfirmationMismatch in errs <==> ConfirmationDiffers(newPassword, confirmation)
    ensures NameBlank in errs <==> Blank(u.name)
    ensures EmailTaken in errs <==> u.email in others
    ensures EmailInvalid in errs <==> !wellFormed(u.email)
    ensures GenderInvalid in errs <==> !GenderOk(u.gender)
    ensures errs == [] <==>
              && u.password != ""
              && !ConfirmationDiffers(newPassword, confirmation)
              && !Blank(u.name)
              && u.email !in others
              && wellFormed(u.email)
              && GenderOk(u.gender)
  {
    When(u.password == "", PasswordBlank)
    + When(ConfirmationDiffers(newPassword, confirmation), ConfirmationMismatch)
    + When(Blank(u.name), NameBlank)
    + When(u.email in others, EmailTaken)
    + When(!wellFormed(u.email), EmailInvalid)
    + When(!GenderOk(u.gender), GenderInvalid)
  }

  /** The association `user.tasks`: the tasks whose `user_id` is `u`, in their order. */
  function TasksOf(ts: seq<Task>, u: UserId): (r: seq<Task>)
    ensures forall t :: t in r <==> t in ts && t.user == u
    ensures IdsIncreasing(ts) ==> IdsIncreasing(r)
  {
    if ts == [] then []
    else
      assert ts == [ts[0]] + ts[1..];
      var rest := TasksOf(ts[1..], u);
      assert forall t :: t in rest ==> t in ts[1..];
      if ts[0].user == u then
        assert IdsIncreasing(ts) ==> IdsIncreasing([ts[0]] + rest) by {
          if IdsIncreasing(ts) {
            assert IdsIncreasing(ts[1..]) by { KeepHead(ts, []); }
            KeepHead(ts, rest);
          }
        }
        [ts[0]] + rest
      else rest
  }
}
