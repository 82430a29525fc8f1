/** The physical-evaluation catalogue page: the comma-separated options
    field, the save guard and payload, editing, and the delete report. */
module Evaluations {
  import opened Values
  import opened Lists
  import opened Text

  /** `pieces.map(item => item.trim()).filter(Boolean)`. */
  function CleanPieces(pieces: seq<string>): (r: seq<string>)
    ensures Clean(r)
  {
    if |pieces| == 0 then []
    else
      var head := Trim(pieces[0]);
      var rest := CleanPieces(pieces[1..]);
      if head != "" then CleanPrepend(head, rest); [head] + rest else rest
  }

  /** No option is empty or padded. */
  predicate Clean(options: seq<string>) {
    forall i :: 0 <= i < |options| ==> options[i] != "" && Trimmed(options[i])
  }

  lemma CleanPrepend(head: string, rest: seq<string>)
    requires head != "" && Trimmed(head) && Clean(rest)
    ensures Clean([head] + rest)
  {
    assert forall i :: 0 < i < |[head] + rest| ==> ([head] + rest)[i] == rest[i - 1];
  }

  /** Every cleaned piece is some piece, trimmed. */
  lemma {:induction false} CleanPiecesFrom(pieces: seq<string>, o: string)
    requires o in CleanPieces(pieces)
    ensures exists i :: 0 <= i < |pieces| && o == Trim(pieces[i])
    decreases |pieces|
  {
    if o != Trim(pieces[0]) {
      CleanPiecesFrom(pieces[1..], o);
      TailIndex(pieces, o);
    }
  }

  lemma TailIndex(pieces: seq<string>, o: string)
    requires |pieces| >= 1
    requires exists i :: 0 <= i < |pieces[1..]| && o == Trim(pieces[1..][i])
    ensures exists i :: 0 <= i < |pieces| && o == Trim(pieces[i])
  {
    var i :| 0 <= i < |pieces[1..]| && o == Trim(pieces[1..][i]);
    assert pieces[1..][i] == pieces[i + 1];
  }

  /** Pieces of a split hold no separator, and trimming adds none. */
  lemma OptionsCommaFree(text: string, o: string)
    requires o in CleanPieces(Split(text, ','))
    ensures ',' !in o
  {
    CleanPiecesFrom(Split(text, ','), o);
    if ',' in o {
      var i :| 0 <= i < |Split(text, ',')| && o == Trim(Split(text, ',')[i]);
      TrimKeeps(Split(text, ',')[i], ',');
    }
  }

  /** The `options` the payload sends: split on commas, trimmed, blanks
      dropped. No option is empty, padded or holds a comma. */
  function ParseOptions(text: string): (r: seq<string>)
    ensures forall i :: 0 <= i < |r| ==> r[i] != "" && Trimmed(r[i]) && ',' !in r[i]
  {
    forall o | o in CleanPieces(Split(text, ','))
      ensures ',' !in o
    {
      OptionsCommaFree(text, o);
    }
    CleanPieces(Split(text, ','))
  }

  /** A list fit to be stored: every option non-empty, unpadded and free
      of commas. */
  predicate WellFormedOptions(xs: seq<string>) {
    forall i :: 0 <= i < |xs| ==> xs[i] != "" && Trimmed(xs[i]) && ',' !in xs[i]
  }

  /** Editing shows the options joined by `", "`; saving reads back exactly
      the stored list. */
  lemma {:induction false} ParseJoinRoundTrip(xs: seq<string>)
    requires WellFormedOptions(xs)
    ensures ParseOptions(Join(xs, ", ")) == xs
    decreases |xs|
  {
    if |xs| == 0 {
      ParseEmpty();
    } else if |xs| == 1 {
      ParseSingle(xs[0]);
      ConsBack(xs);
    } else {
      ParseJoinRoundTrip(xs[1..]);
      JoinStep(xs);
      SplitAtSeparator(xs[0], ',', [' '] + Join(xs[1..], ", "));
      CleanAfterSpace(Join(xs[1..], ", "));
      TrimOfTrimmed(xs[0]);
      RoundTripStep(xs, Join(xs, ", "), Split([' '] + Join(xs[1..], ", "), ','));
    }
  }

  lemma ParseEmpty()
    ensures ParseOptions(Join([], ", ")) == []
  {
    assert Trim("") == "";
  }

  lemma ParseSingle(x: string)
    requires x != "" && Trimmed(x) && ',' !in x
    ensures ParseOptions(Join([x], ", ")) == [x]
  {
    SplitNoSeparator(x, ',');
    TrimOfTrimmed(x);
    CleanSingle(x);
  }

  lemma CleanSingle(x: string)
    requires x != "" && Trim(x) == x
    ensures CleanPieces([x]) == [x]
  {
    assert [x][1..] == [];
  }

  lemma RoundTripStep(xs: seq<string>, joined: string, pieces: seq<string>)
    requires |xs| >= 2 && xs[0] != "" && Trim(xs[0]) == xs[0]
    requires Split(joined, ',') == [xs[0]] + pieces
    requires CleanPieces(pieces) == xs[1..]
    ensures CleanPieces(Split(joined, ',')) == xs
  {
    CleanCons(xs[0], pieces);
    ConsBack(xs);
  }

  lemma ConsBack(xs: seq<string>)
    requires |xs| >= 1
    ensures [xs[0]] + xs[1..] == xs
  {
  }

  lemma JoinStep(xs: seq<string>)
    requires |xs| >= 2
    ensures Join(xs, ", ") == xs[0] + [','] + ([' '] + Join(xs[1..], ", "))
  {
  }

  lemma CleanCons(p: string, rest: seq<string>)
    requires p != "" && Trim(p) == p
    ensures CleanPieces([p] + rest) == [p] + CleanPieces(rest)
  {
    assert ([p] + rest)[1..] == rest;
  }

  /** A space after a comma does not reach the parsed options. */
  lemma CleanAfterSpace(s: string)
    ensures CleanPieces(Split([' '] + s, ',')) == CleanPieces(Split(s, ','))
  {
    SplitConsChar(' ', s, ',');
    TrimAfterSpace(' ', Split(s, ',')[0]);
    CleanHead(Split([' '] + s, ','), Split(s, ','));
  }

  lemma CleanHead(a: seq<string>, b: seq<string>)
    requires |a| >= 1 && |b| >= 1
    requires Trim(a[0]) == Trim(b[0]) && a[1..] == b[1..]
    ensures CleanPieces(a) == CleanPieces(b)
  {
  }

  /** The evaluation form. */
  datatype EvaluationForm = EvaluationForm(editingId: Option<int>, name: string, options: string, active: bool)

  datatype EvaluationPayload = EvaluationPayload(name: string, options: seq<string>, active: bool)

  datatype EvaluationRequest = CreateEvaluation(payload: EvaluationPayload) | UpdateEvaluation(id: int, payload: EvaluationPayload)

  const EvaluationFieldsMessage: string := "Nome e opcoes sao obrigatorios."

  /** `handleSubmit`: refused when the name or the options text is blank;
      otherwise the trimmed name and the parsed options; a non-zero
      `editingId` patches, anything else creates. */
  function SubmitEvaluation(f: EvaluationForm): (r: Result<EvaluationRequest, string>)
    ensures r.Err? <==> AllSpace(f.name) || AllSpace(f.options)
    ensures r.Err? ==> r.error == EvaluationFieldsMessage
    ensures r.Ok? ==> && r.value.payload.name == Trim(f.name) != ""
                      && r.value.payload.options == ParseOptions(f.options)
                      && WellFormedOptions(r.value.payload.options)
                      && r.value.payload.active == f.active
    ensures r.Ok? ==> (r.value.UpdateEvaluation? <==> f.editingId.Some? && f.editingId.value != 0)
  {
    TrimBlank(f.name);
    TrimBlank(f.options);
    if Trim(f.name) == "" || Trim(f.options) == "" then Err(EvaluationFieldsMessage)
    else
      var payload := EvaluationPayload(Trim(f.name), ParseOptions(f.options), f.active);
      if f.editingId.Some? && f.editingId.value != 0 then Ok(UpdateEvaluation(f.editingId.value, payload))
      else Ok(CreateEvaluation(payload))
  }

  /** The guard looks at the raw text, so a field holding only commas is
      accepted and an evaluation with no options is sent. */
  lemma CommasOnlyAccepted(id: Option<int>)
    ensures SubmitEvaluation(EvaluationForm(id, "Postura", ",", true)).Ok?
    ensures SubmitEvaluation(EvaluationForm(id, "Postura", ",", true)).value.payload.options == []
  {
    assert Split(",", ',') == ["", ""] by {
      assert ","[1..] == "";
    }
    assert Trim("") == "";
    assert !AllSpace("Postura") by {
      assert !IsSpace("Postura"[0]);
    }
    assert !AllSpace(",") by {
      assert !IsSpace(","[0]);
    }
  }

  /** The guard the message asks for: refused unless the name is not blank
      and at least one option survives parsing. */
  function SubmitEvaluationChecked(f: EvaluationForm): (r: Result<EvaluationRequest, string>)
    ensures r.Err? <==> AllSpace(f.name) || ParseOptions(f.options) == []
    ensures r.Ok? ==> && r.value.payload.name == Trim(f.name) != ""
                      && r.value.payload.options == ParseOptions(f.options) != []
                      && WellFormedOptions(r.value.payload.options)
  {
    TrimBlank(f.name);
    if Trim(f.name) == "" || ParseOptions(f.options) == [] then Err(EvaluationFieldsMessage)
    else
      var payload := EvaluationPayload(Trim(f.name), ParseOptions(f.options), f.active);
      if f.editingId.Some? && f.editingId.value != 0 then Ok(UpdateEvaluation(f.editingId.value, payload))
      else Ok(CreateEvaluation(payload))
  }

  /** Where the stricter guard accepts, it sends what the page sends. */
  lemma CheckedAgreesWhenAccepted(f: EvaluationForm)
    requires SubmitEvaluationChecked(f).Ok?
    ensures SubmitEvaluation(f) == SubmitEvaluationChecked(f)
  {
    TrimBlank(f.name);
    NonBlankOptions(f.options);
  }

  /** Text with an option in it is not blank. */
  lemma NonBlankOptions(s: string)
    requires ParseOptions(s) != []
    ensures Trim(s) != ""
  {
    if Trim(s) == "" {
      BlankParsesEmpty(s);
    }
  }

  /** Blank text has no options. */
  lemma BlankParsesEmpty(s: string)
    requires Trim(s) == ""
    ensures ParseOptions(s) == []
  {
    TrimBlank(s);
    BlankPieces(s);
  }

  lemma {:induction false} BlankPieces(s: string)
    requires AllSpace(s)
    ensures CleanPieces(Split(s, ',')) == []
    decreases |s|
  {
    if |s| > 0 {
      var c, t := s[0], s[1..];
      assert s == [c] + t;
      assert IsSpace(c) && c != ',';
      assert AllSpace(t) by {
        assert forall i :: 1 <= i < |s| ==> t[i - 1] == s[i];
      }
      BlankPieces(t);
      var p := Split(t, ',');
      SplitConsChar(c, t, ',');
      TrimAfterSpace(c, p[0]);
      CleanHead(Split(s, ','), p);
    } else {
      assert Trim("") == "";
    }
  }

  /** A stored evaluation. */
  datatype Evaluation = Evaluation(id: int, name: string, options: seq<string>, active: Option<bool>)

  /** `handleEdit`. */
  function EditEvaluation(e: Evaluation): (f: EvaluationForm)
    ensures f.editingId == Some(e.id) && f.name == e.name && f.active == e.active.GetOr(true)
  {
    EvaluationForm(Some(e.id), e.name, Join(e.options, ", "), e.active.GetOr(true))
  }

  /** Opening a stored evaluation and saving it unchanged sends back its
      name and options, when the name is trimmed and the options are well
      formed and not empty. */
  lemma EditThenSaveKeepsEvaluation(e: Evaluation)
    requires e.id != 0 && e.name != "" && Trimmed(e.name)
    requires WellFormedOptions(e.options) && e.options != []
    ensures SubmitEvaluation(EditEvaluation(e)) ==
      Ok(UpdateEvaluation(e.id, EvaluationPayload(e.name, e.options, e.active.GetOr(true))))
  {
    ParseJoinRoundTrip(e.options);
    SaveParsed(EditEvaluation(e), e.id, e.name, e.options);
  }

  lemma SaveParsed(f: EvaluationForm, id: int, name: string, options: seq<string>)
    requires f.editingId == Some(id) && id != 0
    requires f.name == name && name != "" && Trimmed(name)
    requires ParseOptions(f.options) == options && options != []
    ensures SubmitEvaluation(f) == Ok(UpdateEvaluation(id, EvaluationPayload(name, options, f.active)))
  {
    TrimOfTrimmed(name);
    NonBlankOptions(f.options);
    assert SubmitEvaluation(f) == Ok(UpdateEvaluation(f.editingId.value, EvaluationPayload(Trim(f.name), ParseOptions(f.options), f.active)));
  }

  /** `resetForm`. */
  function ResetEvaluationForm(): (f: EvaluationForm)
    ensures SubmitEvaluation(f).Err?
  {
    assert AllSpace("");
    EvaluationForm(None, "", "", true)
  }

  /** The toast after a delete: an error exactly when the evaluation is
      still in the list fetched afterwards. */
  datatype Toast = Toast(message: string, isError: bool)

  function DeleteToast(refetched: seq<Evaluation>, id: int): (t: Toast)
    ensures t.isError <==> exists i :: 0 <= i < |refetched| && refetched[i].id == id
  {
    if exists i :: 0 <= i < |refetched| && refetched[i].id == id
    then Toast("Nao foi possivel excluir. Tente novamente.", true)
    else Toast("Avaliacao excluida.", false)
  }

  /** A server that removed the evaluation gets a success report. */
  lemma DeletedReportsSuccess(list: seq<Evaluation>, id: int)
    ensures !DeleteToast(Filter(list, (e: Evaluation) => e.id != id), id).isError
  {
  }
}
