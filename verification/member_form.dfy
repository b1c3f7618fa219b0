/**
 * The admin form for creating and editing a member: loading a member into the
 * form, field edits (text inputs and the board checkbox), the uploaded image,
 * and the record passed on when the form is submitted.
 */
module MemberForm {
  import opened Wrappers
  import opened ApiTypes

  datatype FormData = FormData(
    id: string,
    name: string,
    title: string,
    linkedIn: string,
    image: string,
    board: bool)

  const EmptyForm := FormData("", "", "", "", "", false)

  /** The form's inputs: three text inputs and the board checkbox. */
  datatype Input =
    | NameInput(value: string)
    | TitleInput(value: string)
    | LinkedInInput(value: string)
    | BoardCheckbox(checked: bool)

  /** The effect run when the edited member changes: it fills the form from the member, or leaves it. */
  function Load(member: Option<Member>, form: FormData): (r: FormData)
    ensures member.None? ==> r == form
    ensures member.Some? ==> var m := member.value;
      r == FormData(m.id, m.name, OrEmpty(m.title), OrEmpty(m.linkedIn), OrEmpty(m.image), m.board)
  {
    match member
    case None => form
    case Some(m) => FormData(m.id, m.name, OrEmpty(m.title), OrEmpty(m.linkedIn), OrEmpty(m.image), m.board)
  }

  /** `handleChange`: a checkbox stores its checked state, a text input its value; only that field changes. */
  function HandleChange(form: FormData, input: Input): (r: FormData)
    ensures r.id == form.id && r.image == form.image
    ensures input.NameInput? ==> r == form.(name := input.value)
    ensures input.TitleInput? ==> r == form.(title := input.value)
    ensures input.LinkedInInput? ==> r == form.(linkedIn := input.value)
    ensures input.BoardCheckbox? ==> r == form.(board := input.checked)
  {
    match input
    case NameInput(v) => form.(name := v)
    case TitleInput(v) => form.(title := v)
    case LinkedInInput(v) => form.(linkedIn := v)
    case BoardCheckbox(c) => form.(board := c)
  }

  /** `handleImageUploaded`: only the image changes. */
  function HandleImageUploaded(form: FormData, filename: string): (r: FormData)
    ensures r.image == filename
    ensures r.(image := form.image) == form
  {
    form.(image := filename)
  }

  /** `handleSubmit`: empty optional fields become null, nothing is trimmed, the rest is copied. */
  function Submit(form: FormData): (m: Member)
    ensures m.id == form.id && m.name == form.name && m.board == form.board
    ensures m.title == OrNull(form.title) && m.linkedIn == OrNull(form.linkedIn) && m.image == OrNull(form.image)
  {
    Member(form.id, form.name, OrNull(form.linkedIn), OrNull(form.title), form.board, OrNull(form.image))
  }

  /** Loading what was submitted restores the form exactly. */
  lemma LoadSubmitRoundTrip(form: FormData)
    ensures Load(Some(Submit(form)), EmptyForm) == form
  {
  }

  /** Submitting a loaded member gives it back when none of its optional fields is the empty string. */
  lemma SubmitLoadRoundTrip(m: Member, form: FormData)
    requires m.title != Some("") && m.linkedIn != Some("") && m.image != Some("")
    ensures Submit(Load(Some(m), form)) == m
  {
  }

  /** An empty optional field does not survive the form: it comes back as null. */
  lemma EmptyFieldBecomesNull(m: Member, form: FormData)
    requires m.title == Some("")
    ensures Submit(Load(Some(m), form)).title.None?
  {
  }
}
