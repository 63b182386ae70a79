/** The validation prefix of `handleSaveUser` and the store write it leads to. */
module Saving {
  import opened Wrappers
  import opened JsValues
  import opened Members

  /** The signed-in account, as the authentication context reports it. */
  datatype AuthUser = AuthUser(uid: string)

  const AdminOnlyError: string := "Only admins can manage users."
  const RequiredFieldsError: string := "Name, Email, and Role are required."

  /** What a click on Save does: report an error and write nothing, write the
      given fields into the document being edited (fields not given keep their
      stored values), or create a new document. */
  datatype SaveAction =
    | Rejected(message: string)
    | UpdateDoc(target: Value, fields: Record)
    | CreateDoc(key: string, fields: Record)

  /** `user && role === "admin"` */
  predicate IsAdmin(user: Option<AuthUser>, role: Option<string>) {
    user.Some? && role == Some("admin")
  }

  /** `form.name && form.email && form.role` */
  predicate HasRequiredFields(form: Record) {
    Truthy(Get(form, "name")) && Truthy(Get(form, "email")) && Truthy(Get(form, "role"))
  }

  /** `handleSaveUser` up to the store call. The clock-derived document key
      (`Date.now()`) and creation time are parameters. */
  function PlanSave(
    user: Option<AuthUser>, role: Option<string>, form: Record,
    editing: Option<Record>, newId: string, createdAt: string): (r: SaveAction)
    // nothing is written unless an admin submits a name, an email and a role
    ensures r.Rejected? <==> !IsAdmin(user, role) || !HasRequiredFields(form)
    // the permission check comes first, whatever the form holds
    ensures !IsAdmin(user, role) ==> r == Rejected(AdminOnlyError)
    ensures IsAdmin(user, role) && !HasRequiredFields(form) ==> r == Rejected(RequiredFieldsError)
    // an edit writes the form's fields, as submitted, into the edited record's document
    ensures r.UpdateDoc? <==> !r.Rejected? && editing.Some?
    ensures r.UpdateDoc? ==> r.target == Get(editing.value, "id") && r.fields == form
    // a creation keeps the form's fields and stamps the creator and the time
    ensures r.CreateDoc? ==> r.key == newId
    ensures r.CreateDoc? ==> r.fields.Keys == form.Keys + {"createdAt", "createdBy"}
    ensures r.CreateDoc? ==> forall k :: k in form && k != "createdAt" && k != "createdBy" ==> r.fields[k] == form[k]
    ensures r.CreateDoc? ==> r.fields["createdAt"] == Str(createdAt) && r.fields["createdBy"] == Str(user.value.uid)
  {
    if user.None? || role != Some("admin") then Rejected(AdminOnlyError)
    else if !Truthy(Get(form, "name")) || !Truthy(Get(form, "email")) || !Truthy(Get(form, "role")) then
      Rejected(RequiredFieldsError)
    else
      match editing
      case Some(u) => UpdateDoc(Get(u, "id"), form)
      case None => CreateDoc(newId, form["createdAt" := Str(createdAt)]["createdBy" := Str(user.value.uid)])
  }

  /** A rejection does not depend on the record being edited or on the clock. */
  lemma RejectionIgnoresTarget(
    user: Option<AuthUser>, role: Option<string>, form: Record,
    e1: Option<Record>, e2: Option<Record>, id1: string, id2: string, t1: string, t2: string)
    requires PlanSave(user, role, form, e1, id1, t1).Rejected?
    ensures PlanSave(user, role, form, e1, id1, t1) == PlanSave(user, role, form, e2, id2, t2)
  {
  }
}
