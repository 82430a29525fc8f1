/** The services page: the save guard, how duration and capacity reach
    the server, and the form's edit and reset defaults. */
module Services {
  import opened Values
  import opened Text

  datatype ServiceForm = ServiceForm(
    editingId: Option<int>, name: string, sessionType: string, duration: string,
    capacity: string, description: string, active: bool)

  /** Duration always goes through `Number`; a blank capacity is `null`. */
  datatype ServicePayload = ServicePayload(
    name: string, sessionType: Option<string>, duration: JsNumber,
    capacity: Option<JsNumber>, description: Option<string>, active: bool)

  datatype ServiceRequest = CreateService(payload: ServicePayload) | UpdateService(id: int, payload: ServicePayload)

  const ServiceFieldsMessage: string := "Nome e duracao sao obrigatorios."

  /** The duration the form starts with and falls back to. */
  const DefaultDuration: int := 60

  /** `if (editingId)`: a non-null, non-zero id. */
  predicate Editing(editingId: Option<int>) {
    editingId.Some? && editingId.value != 0
  }

  /** `handleSubmit`: name and duration must be non-empty (untrimmed). */
  function SubmitService(f: ServiceForm): (r: Result<ServiceRequest, string>)
    ensures r.Err? <==> f.name == "" || f.duration == ""
    ensures r.Err? ==> r.error == ServiceFieldsMessage
    ensures r.Ok? ==> (r.value.UpdateService? <==> Editing(f.editingId))
    ensures r.Ok? && r.value.UpdateService? ==> r.value.id == f.editingId.value
    ensures r.Ok? ==> && r.value.payload.name == f.name && r.value.payload.active == f.active
                      && r.value.payload.duration == ToNumber(f.duration)
                      && (r.value.payload.capacity.None? <==> f.capacity == "")
                      && (f.capacity != "" ==> r.value.payload.capacity == Some(ToNumber(f.capacity)))
                      && r.value.payload.sessionType.GetOr("") == f.sessionType
                      && (r.value.payload.sessionType.None? <==> f.sessionType == "")
                      && r.value.payload.description.GetOr("") == f.description
                      && (r.value.payload.description.None? <==> f.description == "")
  {
    if f.name == "" || f.duration == "" then Err(ServiceFieldsMessage)
    else
      var payload := ServicePayload(f.name, OrNull(f.sessionType), ToNumber(f.duration),
        if f.capacity != "" then Some(ToNumber(f.capacity)) else None,
        OrNull(f.description), f.active);
      if Editing(f.editingId) then Ok(UpdateService(f.editingId.value, payload)) else Ok(CreateService(payload))
  }

  /** The guard only asks for a non-empty duration text, so a duration of
      zero or less written as an integer is saved as that number. */
  lemma NonPositiveDurationSaved(f: ServiceForm, n: int)
    requires f.name != "" && n <= 0 && f.duration == IntToString(n)
    ensures SubmitService(f).Ok? && SubmitService(f).value.payload.duration == Finite(n)
  {
    ToNumberOfIntToString(n);
  }

  /** A stored service; duration and capacity may be missing. */
  datatype Service = Service(
    id: int, name: string, sessionType: Option<string>, duration: Option<int>,
    capacity: Option<int>, description: Option<string>, active: Option<bool>)

  /** `handleEdit`: a missing duration shows as 60, a missing or zero
      capacity as blank. */
  function EditService(s: Service): (f: ServiceForm)
    ensures f.editingId == Some(s.id) && f.name == s.name && f.active == s.active.GetOr(true)
    ensures f.duration != ""
    ensures f.capacity == "" <==> s.capacity.None? || s.capacity.value == 0
  {
    IntToStringTrimmed(s.duration.GetOr(DefaultDuration));
    ServiceForm(Some(s.id), s.name, s.sessionType.GetOr(""), IntToString(s.duration.GetOr(DefaultDuration)),
      if s.capacity.Some? && s.capacity.value != 0 then IntToString(s.capacity.value) else "",
      s.description.GetOr(""), s.active.GetOr(true))
  }

  /** A stored capacity as it comes back from the form: zero turns into
      `null`. */
  function CapacityBack(c: Option<int>): Option<JsNumber> {
    if c.None? || c.value == 0 then None else Some(Finite(c.value))
  }

  /** Opening a stored service and saving it unchanged sends the same
      duration (60 when it had none) and the same capacity, except that a
      zero capacity is sent as `null`. */
  lemma EditThenSaveKeepsService(s: Service)
    requires s.id != 0 && s.name != ""
    ensures SubmitService(EditService(s)).Ok?
    ensures SubmitService(EditService(s)).value == UpdateService(s.id, SubmitService(EditService(s)).value.payload)
    ensures SubmitService(EditService(s)).value.payload.duration == Finite(s.duration.GetOr(DefaultDuration))
    ensures SubmitService(EditService(s)).value.payload.capacity == CapacityBack(s.capacity)
  {
    ToNumberOfIntToString(s.duration.GetOr(DefaultDuration));
    if s.capacity.Some? {
      ToNumberOfIntToString(s.capacity.value);
    }
  }

  /** `resetForm`: a new, active service lasting 60 minutes with no
      capacity; saving it as is is refused for the missing name. */
  function ResetServiceForm(): (f: ServiceForm)
    ensures !Editing(f.editingId) && f.active && f.capacity == ""
    ensures ToNumber(f.duration) == Finite(DefaultDuration)
    ensures SubmitService(f) == Err(ServiceFieldsMessage)
  {
    ToNumberOfIntToString(DefaultDuration);
    ServiceForm(None, "", "", IntToString(DefaultDuration), "", "", true)
  }

  /** Filling in only a name on the reset form creates a 60-minute service
      with no capacity. */
  lemma NamedResetCreates(name: string)
    requires name != ""
    ensures SubmitService(ResetServiceForm().(name := name))
      == Ok(CreateService(ServicePayload(name, None, Finite(DefaultDuration), None, None, true)))
  {
  }
}
