/** The panel-users page: the permission check boxes, the save guard and
    payload, editing and resetting the form, and the local removal after a
    delete. */
module Users {
  import opened Values
  import opened Lists
  import opened Text
  import opened Access

  datatype UserForm = UserForm(
    editingId: Option<int>, name: string, email: string, password: string,
    role: string, permissions: seq<string>, professionalId: string)

  /** `password` is left out of the payload when blank (`undefined`);
      `professional_id` is null when blank. */
  datatype UserPayload = UserPayload(
    name: string, email: string, password: Option<string>, role: string,
    permissions: seq<string>, professionalId: Option<JsNumber>)

  datatype UserRequest = CreateUser(payload: UserPayload) | UpdateUser(id: int, payload: UserPayload)

  const UserFieldsMessage: string := "Nome, email e senha sao obrigatorios."

  /** `if (editingId)`: a non-null, non-zero id. */
  predicate Editing(editingId: Option<int>) {
    editingId.Some? && editingId.value != 0
  }

  /** `handleSubmit`: name and email always required, a password only when
      creating. */
  function SubmitUser(f: UserForm): (r: Result<UserRequest, string>)
    ensures r.Err? <==> f.name == "" || f.email == "" || (!Editing(f.editingId) && f.password == "")
    ensures r.Err? ==> r.error == UserFieldsMessage
    ensures r.Ok? ==> (r.value.UpdateUser? <==> Editing(f.editingId))
    ensures r.Ok? ==> && r.value.payload.name == f.name && r.value.payload.email == f.email
                      && r.value.payload.role == f.role && r.value.payload.permissions == f.permissions
                      && (r.value.payload.password.None? <==> f.password == "")
                      && r.value.payload.password.GetOr("") == f.password
                      && (r.value.payload.professionalId.None? <==> f.professionalId == "")
                      && (f.professionalId != "" ==> r.value.payload.professionalId == Some(ToNumber(f.professionalId)))
  {
    if f.name == "" || f.email == "" || (!Editing(f.editingId) && f.password == "") then Err(UserFieldsMessage)
    else
      var payload := UserPayload(f.name, f.email, OrNull(f.password), f.role, f.permissions,
        if f.professionalId != "" then Some(ToNumber(f.professionalId)) else None);
      if Editing(f.editingId) then Ok(UpdateUser(f.editingId.value, payload)) else Ok(CreateUser(payload))
  }

  /** `togglePermission`. */
  function TogglePermission(f: UserForm, permission: string): (r: UserForm)
    ensures permission in r.permissions <==> permission !in f.permissions
    ensures forall p :: p != permission ==> (p in r.permissions <==> p in f.permissions)
    ensures r == f.(permissions := r.permissions)
  {
    f.(permissions := Toggle(f.permissions, permission))
  }

  /** Ticking a box twice restores the held permissions. */
  lemma TogglePermissionTwice(f: UserForm, permission: string)
    ensures forall p :: p in TogglePermission(TogglePermission(f, permission), permission).permissions <==> p in f.permissions
  {
    ToggleTwice(f.permissions, permission);
  }

  /** A saved user holding a ticked permission passes the panel's check for
      it. */
  lemma TickedPermissionGrants(f: UserForm, permission: string)
    requires permission !in f.permissions
    requires SubmitUser(TogglePermission(f, permission)).Ok?
    ensures HasPermission(Some(Me(Some(SubmitUser(TogglePermission(f, permission)).value.payload.role),
                                  Some(SubmitUser(TogglePermission(f, permission)).value.payload.permissions))),
                          Needs(permission))
  {
  }

  /** A stored user. */
  datatype User = User(
    id: int, name: string, email: string, role: Option<string>,
    permissions: Option<seq<string>>, professionalId: Option<int>)

  /** `handleEdit`: the password cleared, role `staff` and no permissions
      when the record has none, and the professional shown only when set
      to a non-zero id. */
  function EditUser(u: User): (f: UserForm)
    ensures f.editingId == Some(u.id) && f.password == ""
    ensures f.role == u.role.GetOr("staff") && f.permissions == u.permissions.GetOr([])
    ensures f.professionalId == "" <==> u.professionalId.None? || u.professionalId.value == 0
  {
    UserForm(Some(u.id), u.name, u.email, "", u.role.GetOr("staff"), u.permissions.GetOr([]),
      if u.professionalId.Some? && u.professionalId.value != 0 then IntToString(u.professionalId.value) else "")
  }

  /** Opening a stored user and saving it unchanged keeps the stored
      password (none is sent) and sends back role, permissions and linked
      professional. */
  lemma EditThenSaveKeepsUser(u: User)
    requires u.id != 0 && u.name != "" && u.email != ""
    requires u.professionalId != Some(0)
    ensures SubmitUser(EditUser(u)) == Ok(UpdateUser(u.id, UserPayload(
      u.name, u.email, None, u.role.GetOr("staff"), u.permissions.GetOr([]),
      if u.professionalId.Some? then Some(Finite(u.professionalId.value)) else None)))
  {
    if u.professionalId.Some? {
      ToNumberOfIntToString(u.professionalId.value);
    }
  }

  /** `resetForm`. */
  function ResetUserForm(): (f: UserForm)
    ensures f.editingId.None? && f.role == "staff" && f.permissions == []
    ensures SubmitUser(f).Err?
  {
    UserForm(None, "", "", "", "staff", [], "")
  }

  /** After a delete the local list drops exactly the entries with that
      id. */
  function DropUser(users: seq<User>, id: int): (r: seq<User>)
    ensures forall u :: u in r <==> u in users && u.id != id
  {
    Filter(users, (u: User) => u.id != id)
  }
}
