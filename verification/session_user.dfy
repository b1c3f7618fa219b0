/**
 * The user record built from an authentication session: first and last name
 * from the session's metadata (explicit names, else a full name or display
 * name split at the first space, else the part of the email before `@`), the
 * avatar, the email-verified flag and the admin flag.
 */
module SessionUser {
  import opened Wrappers
  import opened Text

  /** The parts of the session the derivation reads; absent fields are `None`. */
  datatype Metadata = Metadata(
    firstName: Option<string>,
    lastName: Option<string>,
    fullName: Option<string>,
    name: Option<string>,
    avatarUrl: Option<string>)

  datatype Session = Session(
    userId: string,
    email: Option<string>,
    emailConfirmedAt: Option<string>,
    metadata: Metadata)

  datatype UserData = UserData(
    id: string,
    email: string,
    firstName: string,
    lastName: string,
    profilePicture: string,
    emailVerified: bool,
    isAdmin: bool,
    dateJoined: Option<string>)

  /** JavaScript truthiness of an optional string: present and non-empty. */
  predicate Truthy(v: Option<string>) {
    v.Some? && v.value != ""
  }

  /** `v || ''`. */
  function OrEmpty(v: Option<string>): (r: string)
    ensures Truthy(v) ==> r == v.value
    ensures !Truthy(v) ==> r == ""
  {
    if Truthy(v) then v.value else ""
  }

  /** `[parts[0] || '', parts.slice(1).join(' ') || '']` for `parts = s.split(' ')`. */
  function SplitName(s: string): (r: (string, string))
    ensures r.0 == BeforeFirst(s, ' ') && r.1 == AfterFirst(s, ' ')
  {
    var parts := Split(s, ' ');
    SplitTailJoin(s, ' ');
    (parts[0], Join(parts[1..], ' '))
  }

  /** The first and last name the session yields. */
  function Names(session: Session): (r: (string, string))
  {
    var m := session.metadata;
    if Truthy(m.firstName) then (m.firstName.value, OrEmpty(m.lastName))
    else if Truthy(m.fullName) then SplitName(m.fullName.value)
    else if Truthy(m.name) then SplitName(m.name.value)
    else (BeforeFirst(OrEmpty(session.email), '@'), "")
  }

  /** `extractUserDataFromSession`; `isAdmin` is the answer of the admin-status lookup for the email. */
  function ExtractUserData(session: Session, isAdmin: bool): (u: UserData)
    ensures u.id == session.userId && u.email == OrEmpty(session.email)
    ensures (u.firstName, u.lastName) == Names(session)
    ensures u.profilePicture == OrEmpty(session.metadata.avatarUrl)
    ensures u.emailVerified <==> Truthy(session.emailConfirmedAt)
    ensures u.isAdmin == isAdmin && u.dateJoined.None?
  {
    UserData(
      session.userId,
      OrEmpty(session.email),
      Names(session).0,
      Names(session).1,
      OrEmpty(session.metadata.avatarUrl),
      Truthy(session.emailConfirmedAt),
      isAdmin,
      None)
  }

  /** The minimal record returned when reading the session fails; `now` is the current time as ISO text. */
  function FallbackUserData(session: Session, isAdmin: bool, now: string): (u: UserData)
    ensures u.id == session.userId && u.email == OrEmpty(session.email)
    ensures u.firstName == "User" && u.lastName == "" && u.profilePicture == ""
    ensures !u.emailVerified && u.isAdmin == isAdmin && u.dateJoined == Some(now)
  {
    UserData(session.userId, OrEmpty(session.email), "User", "", "", false, isAdmin, Some(now))
  }

  /** Which metadata field the names come from: explicit names win over a full name, which wins over a display name. */
  lemma NamesPrecedence(session: Session)
    ensures var m := session.metadata;
      && (Truthy(m.firstName) ==> Names(session) == (m.firstName.value, OrEmpty(m.lastName)))
      && (!Truthy(m.firstName) && Truthy(m.fullName) ==>
            Names(session).0 == BeforeFirst(m.fullName.value, ' ') && Names(session).1 == AfterFirst(m.fullName.value, ' '))
      && (!Truthy(m.firstName) && !Truthy(m.fullName) && Truthy(m.name) ==>
            Names(session).0 == BeforeFirst(m.name.value, ' ') && Names(session).1 == AfterFirst(m.name.value, ' '))
      && (!Truthy(m.firstName) && !Truthy(m.fullName) && !Truthy(m.name) ==>
            Names(session) == (BeforeFirst(OrEmpty(session.email), '@'), ""))
  {
  }

  /** A split name puts the first word in the first name, and joining the two parts with a space gives the name back. */
  lemma SplitNameRoundTrip(s: string)
    ensures ' ' !in SplitName(s).0
    ensures ' ' in s ==> SplitName(s).0 + " " + SplitName(s).1 == s
    ensures ' ' !in s ==> SplitName(s) == (s, "")
  {
  }

  /** With no name in the metadata, the first name is the email's local part and holds no `@`. */
  lemma EmailFallback(session: Session)
    requires var m := session.metadata; !Truthy(m.firstName) && !Truthy(m.fullName) && !Truthy(m.name)
    ensures '@' !in Names(session).0 && Names(session).1 == ""
    ensures IsPrefix(Names(session).0, OrEmpty(session.email))
    ensures '@' in OrEmpty(session.email) ==>
              Names(session).0 + "@" + AfterFirst(OrEmpty(session.email), '@') == OrEmpty(session.email)
  {
  }

  /** The two records agree on identity and admin flag; the fallback never claims a verified email. */
  lemma FallbackAgreesOnIdentity(session: Session, isAdmin: bool, now: string)
    ensures var u := ExtractUserData(session, isAdmin);
            var f := FallbackUserData(session, isAdmin, now);
      u.id == f.id && u.email == f.email && u.isAdmin == f.isAdmin && !f.emailVerified
  {
  }
}
