/**
 The case-record edit dialog: three text fields loaded from the record
 being edited, a save that refuses a blank field (after trimming) with one
 error message, and a save button greyed out in exactly the same cases, so
 that a press never reaches the refusal.
 */
module EditModal {
  import opened Text
  import opened Seqs

  /** The record the dialog edits; its id is a string here. */
  datatype Record = Record(id: string, numero: string, estado: string, partes: string)

  /** The dialog's own state: the three fields as typed and the error line. */
  datatype Modal = Modal(numero: string, estado: string, partes: string, error: string)

  const Initial: Modal := Modal("", "", "", "")

  const RequiredMessage: string := "Todos los campos son obligatorios"

  datatype Field = Numero | Estado | Partes

  /** What a press of "Guardar" did: the dialog afterwards and the record
      handed to the save callback, if any. */
  datatype SaveResult = SaveResult(modal: Modal, saved: Option<Record>)

  /** The effect that runs when the record prop changes: a record loads its
      three fields and clears the error; no record leaves the dialog alone. */
  function OnRecordChange(m: Modal, e: Option<Record>): (r: Modal)
    ensures e.Some? ==> r == Modal(e.value.numero, e.value.estado, e.value.partes, "")
    ensures e.None? ==> r == m
  {
    match e
    case Some(rec) => Modal(rec.numero, rec.estado, rec.partes, "")
    case None => m
  }

  /** Typing into one of the inputs. */
  function Type(m: Modal, f: Field, v: string): (r: Modal)
    ensures r.error == m.error
    ensures f == Numero ==> r == m.(numero := v)
    ensures f == Estado ==> r == m.(estado := v)
    ensures f == Partes ==> r == m.(partes := v)
  {
    match f
    case Numero => m.(numero := v)
    case Estado => m.(estado := v)
    case Partes => m.(partes := v)
  }

  /** Whether "Guardar" is greyed out: some field is blank once trimmed. */
  predicate SaveDisabled(m: Modal) {
    IsBlank(m.numero) || IsBlank(m.estado) || IsBlank(m.partes)
  }

  /** `handleSave` for the record on screen: a field that is blank once
      trimmed sets the error and saves nothing; otherwise the error is
      cleared and the record goes out with the three fields as typed
      (untrimmed) and everything else, the id included, as it was. */
  function HandleSave(m: Modal, e: Record): (r: SaveResult)
    ensures r.modal.numero == m.numero && r.modal.estado == m.estado && r.modal.partes == m.partes
    ensures r.saved.None? ==> r.modal.error == RequiredMessage
    ensures r.saved.Some? ==>
      (&& r.modal.error == ""
       && r.saved.value.id == e.id
       && r.saved.value.numero == m.numero
       && r.saved.value.estado == m.estado
       && r.saved.value.partes == m.partes)
  {
    if IsBlank(m.numero) || IsBlank(m.estado) || IsBlank(m.partes) then
      SaveResult(m.(error := RequiredMessage), None)
    else
      SaveResult(m.(error := ""), Some(e.(numero := m.numero, estado := m.estado, partes := m.partes)))
  }

  /** The dialog draws anything only when open and given a record. */
  predicate Renders(isOpen: bool, e: Option<Record>) {
    isOpen && e.Some?
  }

  /** A press of "Guardar". The button exists only while the dialog is drawn,
      and a greyed-out button fires no click (the inputs sit in no form, so
      Enter submits nothing either): a press reaches `handleSave` only with
      the dialog open, a record on screen and no blank field, and then the
      record always goes out. */
  function PressSave(isOpen: bool, e: Option<Record>, m: Modal): (r: SaveResult)
    ensures !Renders(isOpen, e) ==> r == SaveResult(m, None)
    ensures SaveDisabled(m) ==> r == SaveResult(m, None)
    ensures Renders(isOpen, e) && !SaveDisabled(m) ==>
      r == HandleSave(m, e.value) && r.saved.Some? && r.modal.error == ""
  {
    if Renders(isOpen, e) && !SaveDisabled(m) then HandleSave(m, e.value) else SaveResult(m, None)
  }

  /** No record goes out unless the dialog is open with a record on screen,
      and what goes out is that record with the three fields as typed. */
  lemma NoSaveWithoutRecord(isOpen: bool, e: Option<Record>, m: Modal)
    ensures var r := PressSave(isOpen, e, m);
      r.saved.Some? ==>
        && isOpen && e.Some?
        && r.saved.value == e.value.(numero := m.numero, estado := m.estado, partes := m.partes)
  {
  }

  /** What can happen to the dialog: the record prop changes, a field is
      typed into, or "Guardar" is pressed. */
  datatype Event =
    | Load(record: Option<Record>)
    | Edit(field: Field, text: string)
    | Press(isOpen: bool, shown: Option<Record>)

  /** The dialog after one event. No event puts a message on screen: the
      error line either stays as it was or is cleared. */
  function Apply(m: Modal, ev: Event): (r: Modal)
    ensures r.error == m.error || r.error == ""
    ensures m.error == "" ==> r.error == ""
  {
    match ev
    case Load(e) => OnRecordChange(m, e)
    case Edit(f, v) => Type(m, f, v)
    case Press(isOpen, e) => PressSave(isOpen, e, m).modal
  }

  /** The dialog after a run of events. */
  function Replay(m: Modal, evs: seq<Event>): Modal
    decreases |evs|
  {
    if |evs| == 0 then m else Replay(Apply(m, evs[0]), evs[1..])
  }

  /** Starting from a clear error line, the error line stays clear through
      any run of events: the required-fields message is never shown, since
      the only branch that sets it sits behind a greyed-out button. */
  lemma {:induction false} ErrorStaysClear(m: Modal, evs: seq<Event>)
    requires m.error == ""
    ensures Replay(m, evs).error == ""
    decreases |evs|
  {
    if |evs| > 0 {
      ErrorStaysClear(Apply(m, evs[0]), evs[1..]);
    }
  }

  /** From the dialog as first mounted, no run of events shows the
      required-fields message. */
  lemma RequiredMessageNeverShown(evs: seq<Event>)
    ensures Replay(Initial, evs).error != RequiredMessage
  {
    ErrorStaysClear(Initial, evs);
  }

  /** The button is greyed out exactly when a press would be refused. */
  lemma DisabledIffRejected(m: Modal, e: Record)
    ensures SaveDisabled(m) <==> HandleSave(m, e).saved.None?
  {
  }

  /** A refused save means some field is nothing but white space. */
  lemma RejectedMeansBlankField(m: Modal, e: Record)
    requires HandleSave(m, e).saved.None?
    ensures exists s :: s in {m.numero, m.estado, m.partes} && forall i :: 0 <= i < |s| ==> IsSpace(s[i])
  {
    BlankIffAllSpace(m.numero);
    BlankIffAllSpace(m.estado);
    BlankIffAllSpace(m.partes);
  }

  /** Opening a record and saving it untouched hands back the same record,
      unless one of its fields was blank to begin with. */
  lemma LoadThenSaveRoundTrip(m: Modal, e: Record)
    requires !IsBlank(e.numero) && !IsBlank(e.estado) && !IsBlank(e.partes)
    ensures HandleSave(OnRecordChange(m, Some(e)), e) == SaveResult(Modal(e.numero, e.estado, e.partes, ""), Some(e))
  {
  }

  /** Saving never changes what is typed, so pressing again gives the same answer. */
  lemma SaveIsRepeatable(m: Modal, e: Record)
    ensures HandleSave(HandleSave(m, e).modal, e) == HandleSave(m, e)
  {
  }

  /** The error line changes only when a record is loaded or a save goes
      out, and then it is cleared; typing, a press on a greyed-out button and
      a press without the dialog drawn leave it exactly as it was. */
  lemma ErrorClearedOnlyByLoadOrSave(m: Modal, ev: Event)
    ensures Apply(m, ev).error ==
      if (ev.Load? && ev.record.Some?) || (ev.Press? && PressSave(ev.isOpen, ev.shown, m).saved.Some?)
      then "" else m.error
  {
  }
}
