/** The member and event records the frontend exchanges with the backend. */
module ApiTypes {
  import opened Wrappers

  /** A club member; `linkedIn`, `title` and `image` may be null. */
  datatype Member = Member(
    id: string,
    name: string,
    linkedIn: Option<string>,
    title: Option<string>,
    board: bool,
    image: Option<string>)

  datatype EventType = Club | Recruiting | Featured

  /** A club event; every text field may be null. */
  datatype Event = Event(
    id: int,
    title: Option<string>,
    description: Option<string>,
    date: Option<string>,
    location: Option<string>,
    eventType: EventType,
    image: Option<string>)

  /** `v || ''` how the forms show a nullable text field. */
  function OrEmpty(v: Option<string>): (r: string)
    ensures v.Some? ==> r == v.value
    ensures v.None? ==> r == ""
  {
    v.GetOr("")
  }

  /** `s || null`: how the forms send an optional text field back. */
  function OrNull(s: string): (r: Option<string>)
    ensures r.None? <==> s == ""
    ensures r.Some? ==> r.value == s
  {
    if s == "" then None else Some(s)
  }

  /** The outcome of a call to the backend: its value, or a thrown error. */
  datatype ApiResult<+T> = Success(value: T) | Failure
}
