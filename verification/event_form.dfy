/**
 * The admin form for creating and editing an event: loading an event into the
 * form, field edits, the uploaded image, and the validation and normalisation
 * applied on submit.
 */
module EventForm {
  import opened Wrappers
  import opened Text
  import opened ApiTypes

  /** The form's fields, all text. */
  datatype FormData = FormData(
    title: string,
    description: string,
    date: string,
    location: string,
    eventType: string,
    image: string)

  const EmptyForm := FormData("", "", "", "", "", "")

  /** The form inputs, by their `name` attribute. */
  datatype Field = TitleField | EventTypeField | DescriptionField | DateField | LocationField

  /** What `handleSubmit` passes on: `id` is present only when an event is being edited. */
  datatype EventData = EventData(
    id: Option<int>,
    title: string,
    description: Option<string>,
    date: Option<string>,
    location: Option<string>,
    eventType: string,
    image: Option<string>)

  function EventTypeName(t: EventType): (r: string)
    ensures r != "" && Trim(r) == r
  {
    var r := match t
      case Club => "club"
      case Recruiting => "recruiting"
      case Featured => "featured";
    assert !IsWhitespace(r[0]) && !IsWhitespace(r[|r| - 1]);
    r
  }

  /** The effect run when the edited event changes: it fills the form from the event, or leaves it. */
  function Load(event: Option<Event>, form: FormData): (r: FormData)
    ensures event.None? ==> r == form
    ensures event.Some? ==> var e := event.value;
      r == FormData(OrEmpty(e.title), OrEmpty(e.description), OrEmpty(e.date), OrEmpty(e.location),
                    EventTypeName(e.eventType), OrEmpty(e.image))
  {
    match event
    case None => form
    case Some(e) =>
      FormData(OrEmpty(e.title), OrEmpty(e.description), OrEmpty(e.date), OrEmpty(e.location),
               EventTypeName(e.eventType), OrEmpty(e.image))
  }

  /** `handleChange`: the named field takes the value. */
  function HandleChange(form: FormData, field: Field, value: string): (r: FormData)
    ensures field == TitleField ==> r == form.(title := value)
    ensures field == EventTypeField ==> r == form.(eventType := value)
    ensures field == DescriptionField ==> r == form.(description := value)
    ensures field == DateField ==> r == form.(date := value)
    ensures field == LocationField ==> r == form.(location := value)
  {
    match field
    case TitleField => form.(title := value)
    case EventTypeField => form.(eventType := value)
    case DescriptionField => form.(description := value)
    case DateField => form.(date := value)
    case LocationField => form.(location := value)
  }

  /** `handleImageUploaded`: only the image changes. */
  function HandleImageUploaded(form: FormData, filename: string): (r: FormData)
    ensures r.image == filename
    ensures r.(image := form.image) == form
  {
    form.(image := filename)
  }

  /**
   * `handleSubmit`: `None` when the title or the event type is blank (the
   * alert); otherwise the trimmed record, with the edited event's id.
   */
  function HandleSubmit(form: FormData, editing: Option<Event>): (r: Option<EventData>)
    ensures r.None? <==> Trim(form.title) == "" || Trim(form.eventType) == ""
    ensures r.Some? ==> r.value.title == Trim(form.title) && r.value.eventType == Trim(form.eventType)
    ensures r.Some? ==> r.value.description == OrNull(Trim(form.description))
                        && r.value.location == OrNull(Trim(form.location))
    ensures r.Some? ==> r.value.date == OrNull(form.date) && r.value.image == OrNull(form.image)
    ensures r.Some? ==> (r.value.id.Some? <==> editing.Some?)
                        && (editing.Some? ==> r.value.id == Some(editing.value.id))
  {
    if Trim(form.title) == "" || Trim(form.eventType) == "" then None
    else
      Some(EventData(
        if editing.Some? then Some(editing.value.id) else None,
        Trim(form.title),
        OrNull(Trim(form.description)),
        OrNull(form.date),
        OrNull(Trim(form.location)),
        Trim(form.eventType),
        OrNull(form.image)))
  }

  /** A submitted record is normalised: required fields non-blank, trimmed fields without edge whitespace, no empty text. */
  predicate Normalised(d: EventData) {
    && d.title != "" && Trim(d.title) == d.title
    && d.eventType != "" && Trim(d.eventType) == d.eventType
    && (d.description.Some? ==> d.description.value != "" && Trim(d.description.value) == d.description.value)
    && (d.location.Some? ==> d.location.value != "" && Trim(d.location.value) == d.location.value)
    && (d.date.Some? ==> d.date.value != "")
    && (d.image.Some? ==> d.image.value != "")
  }

  lemma SubmitNormalises(form: FormData, editing: Option<Event>)
    requires Trim(form.title) != "" && Trim(form.eventType) != ""
    ensures Normalised(HandleSubmit(form, editing).value)
  {
    var d := HandleSubmit(form, editing).value;
    assert d.title != "" && Trim(d.title) == d.title by { TrimIdempotent(form.title); }
    assert d.eventType != "" && Trim(d.eventType) == d.eventType by { TrimIdempotent(form.eventType); }
    assert d.description.Some? ==> d.description.value != "" && Trim(d.description.value) == d.description.value by {
      TrimmedOrNull(form.description);
    }
    assert d.location.Some? ==> d.location.value != "" && Trim(d.location.value) == d.location.value by {
      TrimmedOrNull(form.location);
    }
  }

  /** `s.trim() || null` is null or a non-empty trimmed string. */
  lemma TrimmedOrNull(s: string)
    ensures OrNull(Trim(s)).Some? ==> OrNull(Trim(s)).value != "" && Trim(OrNull(Trim(s)).value) == OrNull(Trim(s)).value
  {
    TrimIdempotent(s);
  }

  /** A trimmed, non-empty or null field survives `OrEmpty`, `trim` and `OrNull` unchanged. */
  lemma TrimmedFieldRoundTrip(v: Option<string>)
    requires v.Some? ==> v.value != "" && Trim(v.value) == v.value
    ensures OrNull(Trim(OrEmpty(v))) == v
  {
    if v.None? {
      assert Trim("") == "";
    }
  }

  /** The fields of a submitted record, put back into the form. */
  function Reload(d: EventData): FormData {
    FormData(d.title, OrEmpty(d.description), OrEmpty(d.date), OrEmpty(d.location), d.eventType, OrEmpty(d.image))
  }

  /** Submitting a form that shows a normalised record gives that record back: normalising is idempotent. */
  lemma SubmitReloadRoundTrip(d: EventData, editing: Option<Event>)
    requires Normalised(d)
    requires d.id.Some? <==> editing.Some?
    requires editing.Some? ==> d.id == Some(editing.value.id)
    ensures HandleSubmit(Reload(d), editing) == Some(d)
  {
    var form := Reload(d);
    TrimmedFieldRoundTrip(d.description);
    TrimmedFieldRoundTrip(d.location);
    assert OrNull(OrEmpty(d.date)) == d.date;
    assert OrNull(OrEmpty(d.image)) == d.image;
    assert Trim(form.title) == d.title && Trim(form.eventType) == d.eventType;
  }

  /** Submitting twice through the form gives the same record. */
  lemma SubmitIdempotent(form: FormData, editing: Option<Event>)
    requires Trim(form.title) != "" && Trim(form.eventType) != ""
    ensures HandleSubmit(Reload(HandleSubmit(form, editing).value), editing) == HandleSubmit(form, editing)
  {
    var d := HandleSubmit(form, editing).value;
    SubmitNormalises(form, editing);
    SubmitReloadRoundTrip(d, editing);
  }

  /** Editing a stored event whose text is already normalised and submitting it unchanged gives the same event back. */
  lemma EditUnchangedRoundTrip(e: Event)
    requires e.title.Some? && e.title.value != "" && Trim(e.title.value) == e.title.value
    requires e.description.Some? ==> e.description.value != "" && Trim(e.description.value) == e.description.value
    requires e.location.Some? ==> e.location.value != "" && Trim(e.location.value) == e.location.value
    requires e.date.Some? ==> e.date.value != ""
    requires e.image.Some? ==> e.image.value != ""
    ensures var r := HandleSubmit(Load(Some(e), EmptyForm), Some(e));
      r == Some(EventData(Some(e.id), e.title.value, e.description, e.date, e.location, EventTypeName(e.eventType), e.image))
  {
    var d := EventData(Some(e.id), e.title.value, e.description, e.date, e.location, EventTypeName(e.eventType), e.image);
    assert Load(Some(e), EmptyForm) == Reload(d);
    SubmitReloadRoundTrip(d, Some(e));
  }
}
