# muffin club website — verified model of its core logic

This project models the parts of the muffin club website that decide
things, as opposed to drawing pages or calling services. Each Dafny module
follows one source file:

- `ImageResize` models the adaptive image resizer used before every upload
  (`resizeImageToFitSize`). It repeatedly encodes the image, lowering
  quality and then size, until the file fits its byte budget. The module
  also models the checks and the object name of `uploadImage`.
- `UploadValidation` models the size and type check on a picture before
  upload.
- `BreedSelection` models the breed-prediction form: adding, deleting and
  updating rows, the percentage total, the validity rule, the picks sent
  on submit, the duplicate-breed refusal and the percentage input filter.
- `BoardRanking` models the board page order: the title priority, the
  comparator and the sort.
- `AuthSlice` and `StatusSlice` model the two Redux stores. They are
  classes whose methods update their fields in place. The browser's
  `localStorage` is a map field of the auth store.
- `SessionUser` models the user record built from an authentication
  session: the name precedence chain, the name split and the fallback
  record.
- `EventForm` and `MemberForm` model the admin forms: loading a record,
  field edits, the uploaded image, and the validation and normalisation
  done on submit.
- `EventManagement` and `MemberManagement` model the admin lists after a
  create, an update or a delete. They also cover the removal of a deleted
  member's pictures from storage.
- `Serializers` models the backend field validators.

Shared support lives in three modules:

- `Wrappers` holds `Option` and `Result`.
- `Text` holds trimming, lower-casing, substring search, decimal digits and
  split/join.
- `ListUpdates` holds append, replace-where and remove-where.

The backend calls are not modelled. Their outcomes enter as parameters:
`ApiResult` is the value a call returned, or `Failure` for a thrown error.
The image encoder is a function parameter too. It maps width, height and
quality to the encoded size, or to `None` when no blob is produced.

Quality is counted in integer tenths. The source lowers a double by 0.1
while `quality > 0.3`. After six steps from 0.9 the double is
0.30000000000000016, which still passes the test. So 0.2 is also tried,
and each size level gets eight encodes (0.9 down to 0.2). The model makes
this explicit: the floor is 2 tenths (`ImageResize.QualityFloor`).

`validate_date` follows Python's `strptime` pattern for `%Y-%m-%d`:

- `%m` accepts `1[0-2]`, `0[1-9]` or `[1-9]`;
- `%d` accepts `3[01]`, `[12]\d`, `0[1-9]`, `[1-9]` or a space followed by
  `[1-9]`;
- the whole string must be consumed;
- the result must be a real calendar date with year at least 1.

So `2024-1-5` and `2024-01- 5` are accepted. Under Django REST framework a
model `DateField` has already turned the text into a date object before
`validate_date` runs. The string branch is therefore reached only when the
validator is called directly; the model covers both kinds of input.

## Model

| member | source | states |
|---|---|---|
| ImageResize.Shrink | frontend/src/api/supabaseApi.ts:87-88 | `floor(0.85·side)` never grows a side and strictly shrinks a positive one |
| ImageResize.NextConfig | frontend/src/api/supabaseApi.ts:82-94 | above the floor only quality drops, by one tenth, at the same size. At the floor both sides shrink to 85 % and quality resets to 0.9, but only when both sides exceed 50. There is no next step exactly when quality is at the floor and a side is at most 50 |
| ImageResize.NextConfigLowersRank | frontend/src/api/supabaseApi.ts:82-90 | every step strictly lowers a well-founded measure, so the search ends even without the 50-attempt cap |
| ImageResize.Decide | frontend/src/api/supabaseApi.ts:68-96 | after one encode: no blob fails with `EncodeFailed`. A fitting blob succeeds with the original name and type and the blob's size. Too big with a next step continues with that step. Too big with none fails as unachievable, carrying the limit and the achieved size |
| ImageResize.HandleBlob | frontend/src/api/supabaseApi.ts:68-96 | the `toBlob` callback decides exactly as `Decide` |
| ImageResize.SearchFrom | frontend/src/api/supabaseApi.ts:53-96 | the search makes at most the remaining number of encodes out of 50. It makes none exactly when the cap is reached, and its first encode uses the current configuration |
| ImageResize.AttemptResize | frontend/src/api/supabaseApi.ts:45-99 | the `while` loop over `width`, `height`, `quality`, `attempts` returns exactly the result of the search from the natural size at quality 0.9, and records the same trials |
| ImageResize.ResizeImageToFitSize | frontend/src/api/supabaseApi.ts:34-105 | rejects when there is no canvas context or the image does not load; otherwise returns the search from the natural size |
| ImageResize.SearchFromSound | frontend/src/api/supabaseApi.ts:73-94 | a resized file is within the budget and keeps the name and MIME type. An unachievable result reports the limit and an achieved size above it. The search never reports a context or load failure |
| ImageResize.ResizeSound | frontend/src/api/supabaseApi.ts:34-105 | the same for the whole resize. The context failure occurs exactly when there is no context, and the load failure exactly when the context exists but the image does not load |
| ImageResize.SearchFromStepwise | frontend/src/api/supabaseApi.ts:80-90 | each trial follows from the one before by a single quality step or shrink, and every trial but the last encoded over budget |
| ImageResize.ResizeTrials | frontend/src/api/supabaseApi.ts:47-58 | a resize makes between 1 and 50 encodes, the first at the natural size and quality 0.9, each following from the one before |
| ImageResize.SearchFromLastTrial | frontend/src/api/supabaseApi.ts:55-94 | each outcome is explained by the last encode. Success returns that encode's size. `EncodeFailed` means it gave no blob. Unachievable means it was too big with no step left. Too-many-attempts means all 50 encodes ran and the last was still over budget with a step left |
| ImageResize.SearchFromQualityRange | frontend/src/api/supabaseApi.ts:48-90 | every encode uses a quality between 0.2 and 0.9 |
| ImageResize.SearchFromDimensionsNonIncreasing | frontend/src/api/supabaseApi.ts:47-90 | width and height never increase from one encode to any later one |
| ImageResize.SearchFromSmallImage | frontend/src/api/supabaseApi.ts:82-94 | an image with a side of at most 50 is never shrunk: at most eight encodes, all at the natural size |
| ImageResize.SizeLimit | frontend/src/api/supabaseApi.ts:119-125 | 200·1024 bytes for profile and event pictures, 2·1024·1024 for media |
| ImageResize.FileExtension | frontend/src/api/supabaseApi.ts:147 | the extension is the dot-free tail of the name after its last dot, or the whole name when it has no dot |
| ImageResize.FileExtensionOfDotted | frontend/src/api/supabaseApi.ts:147-149 | `stem.ext` has extension `ext` whenever `ext` has no dot |
| ImageResize.ObjectName | frontend/src/api/supabaseApi.ts:146-149 | the object name starts with `bucket_type/prefix.` and has the uploaded file's extension |
| ImageResize.UploadImage | frontend/src/api/supabaseApi.ts:108-149 | the upload is refused as unsupported exactly when the type is not png, jpeg or jpg. A whitelisted file within its bucket's limit is accepted unchanged. A whitelisted oversized file is accepted exactly when the resize succeeds, with the resized file. An accepted upload fits its bucket's limit and keeps the name and type. It was resized exactly when the file exceeded the limit, and otherwise it is the file itself. It goes to the mapped bucket under `bucket_type/prefix.ext`. A resize failure is reported with the size and limit |
| UploadValidation.ValidateImageFile | frontend/src/utils/supabaseUpload.ts:72-92 | valid exactly when size ≤ 5·1024·1024 and the type is jpeg, jpg, png or webp. An error is present exactly when invalid. An oversized file gets the size message whatever its type |
| UploadValidation.LimitInclusive | frontend/src/utils/supabaseUpload.ts:74-80 | exactly 5 MiB passes and one byte more is refused with the size message |
| UploadValidation.SizeReportedFirst | frontend/src/utils/supabaseUpload.ts:74-89 | an oversized GIF is reported as too large, not as a bad type |
| ListUpdates.RemoveWhere | frontend/src/pages/Admin/components/EventManagement.tsx:59 | `filter`: every kept element is an unselected element of the input, and every unselected element is kept |
| ListUpdates.RemoveWhereAppend | frontend/src/pages/BreedSelection/BreedSelection.tsx:113 | filtering distributes over concatenation, so kept elements stay in order |
| ListUpdates.RemoveWhereNoMatch | frontend/src/pages/Admin/components/EventManagement.tsx:59 | a list with nothing selected is unchanged |
| ListUpdates.ReplaceWhere | frontend/src/pages/Admin/components/EventManagement.tsx:44 | `map`: same length, and selected positions hold the new value while the others are unchanged |
| ListUpdates.RemoveAfterReplace | frontend/src/pages/Admin/components/EventManagement.tsx:44-59 | replacing with a selected value and then filtering equals filtering alone |
| BreedSelection.AddComponent | frontend/src/pages/BreedSelection/BreedSelection.tsx:107-110 | exactly one blank row with the fresh id is appended and the old rows are the prefix |
| BreedSelection.DeleteComponent | frontend/src/pages/BreedSelection/BreedSelection.tsx:112-114 | with one row or none, nothing changes. Otherwise exactly the rows with the id go and all others stay |
| BreedSelection.DeleteKeepsOrder | frontend/src/pages/BreedSelection/BreedSelection.tsx:113 | deletion distributes over any split of the list, so the other rows keep their order |
| BreedSelection.DeleteNeverEmpties | frontend/src/pages/BreedSelection/BreedSelection.tsx:112-114 | with distinct row ids a delete never empties a non-empty list |
| BreedSelection.DeleteSharedIdEmpties | frontend/src/pages/BreedSelection/BreedSelection.tsx:112-114 | two rows sharing an id are both deleted, which empties the list; ids must be distinct for the previous property |
| BreedSelection.DeleteUndoesAdd | frontend/src/pages/BreedSelection/BreedSelection.tsx:107-114 | adding a row with an unused id and deleting that id restores the rows |
| BreedSelection.UpdateComponent | frontend/src/pages/BreedSelection/BreedSelection.tsx:116-120 | length and ids are kept. Rows with other ids are unchanged. Matching rows get only the named field set |
| BreedSelection.ParseInt | frontend/src/pages/BreedSelection/BreedSelection.tsx:124 | `parseInt` is NaN exactly when, after leading whitespace and an optional sign, no digit follows |
| BreedSelection.DigitPrefix | frontend/src/pages/BreedSelection/BreedSelection.tsx:124 | the longest all-digit prefix |
| BreedSelection.ParseDigits | frontend/src/pages/BreedSelection/BreedSelection.tsx:124 | an all-digit field parses to the number its digits spell |
| BreedSelection.TotalAppend | frontend/src/pages/BreedSelection/BreedSelection.tsx:122-125 | the total is additive over any split of the rows |
| BreedSelection.AddKeepsTotal | frontend/src/pages/BreedSelection/BreedSelection.tsx:107-125 | blank percentages count 0, so adding a row keeps the total |
| BreedSelection.TotalOfDigitRows | frontend/src/pages/BreedSelection/BreedSelection.tsx:122-125 | when every field is blank or digits, the total is the sum of the fields' decimal values |
| BreedSelection.InitialNotValid | frontend/src/pages/BreedSelection/BreedSelection.tsx:127-128 | the initial single blank row is not valid |
| BreedSelection.OnPercentageInput | frontend/src/pages/BreedSelection/BreedSelection.tsx:246-251 | the field is updated only with the empty string or an all-digit string; other input leaves the rows unchanged |
| BreedSelection.OnPercentageInputKeepsDigits | frontend/src/pages/BreedSelection/BreedSelection.tsx:246-251 | input through the filter keeps every percentage field blank or all digits |
| BreedSelection.FindOptionId | frontend/src/pages/BreedSelection/BreedSelection.tsx:135-141 | `find`: none exactly when no option has the name; otherwise the id of the first option with it |
| BreedSelection.PickOf | frontend/src/pages/BreedSelection/BreedSelection.tsx:133-146 | a row yields a pick exactly when its breed and percentage are non-empty, the breed is an option and the percentage parses. The pick carries that option's id and the parsed percentage |
| BreedSelection.PicksFromRows | frontend/src/pages/BreedSelection/BreedSelection.tsx:133-146 | every pick comes from some row |
| BreedSelection.RowsToPicks | frontend/src/pages/BreedSelection/BreedSelection.tsx:133-146 | every row that yields a pick is represented among the picks |
| BreedSelection.TypeIds | frontend/src/pages/BreedSelection/BreedSelection.tsx:148 | the breed ids of the picks, position by position |
| BreedSelection.SetSizeIffDistinct | frontend/src/pages/BreedSelection/BreedSelection.tsx:148-149 | `new Set(ids).size === ids.length` holds exactly when no id repeats |
| BreedSelection.HandleSubmit | frontend/src/pages/BreedSelection/BreedSelection.tsx:130-152 | nothing happens exactly when the form is invalid. The submit is refused exactly when valid with a repeated breed id. Otherwise the picks are sent, and their ids are distinct |
| BoardRanking.TitlePriority | frontend/src/hooks/BoardHook.tsx:33-41 | the priority is one of 1 to 5 or 999, and it is 999 exactly for a missing or empty title |
| BoardRanking.PriorityIgnoresCase | frontend/src/hooks/BoardHook.tsx:35 | the priority depends on the title only up to letter case |
| BoardRanking.PriorityMeaning | frontend/src/hooks/BoardHook.tsx:36-40 | 1 exactly for "co-president". 2 requires "president" and no "co-". 3 requires "director" and no "co-". 4 requires "co-director". Any "co-" rules out 2 and 3. "co-" and "director" without "co-director" or "co-president" give 5 |
| BoardRanking.CoPresidentExample | frontend/src/hooks/BoardHook.tsx:36 | "Co-President" gets 1 |
| BoardRanking.VicePresidentExample | frontend/src/hooks/BoardHook.tsx:37 | "Vice President" gets 2 |
| BoardRanking.DirectorExample | frontend/src/hooks/BoardHook.tsx:38 | "Director of Events" gets 3 |
| BoardRanking.CoDirectorExample | frontend/src/hooks/BoardHook.tsx:39 | "Co-Director of Marketing" gets 4 |
| BoardRanking.OtherTitleExample | frontend/src/hooks/BoardHook.tsx:40 | "Treasurer" gets 5 |
| BoardRanking.BoardLeTotal | frontend/src/hooks/BoardHook.tsx:43-53 | the comparator orders any two members one way or the other |
| BoardRanking.BoardLeTransitive | frontend/src/hooks/BoardHook.tsx:43-53 | the comparator's order is transitive |
| BoardRanking.BoardLeTies | frontend/src/hooks/BoardHook.tsx:47-51 | members ranked both ways share priority and lowercased title |
| BoardRanking.Insert | frontend/src/hooks/BoardHook.tsx:32 | inserting adds exactly the one member (as a multiset) |
| BoardRanking.InsertSorted | frontend/src/hooks/BoardHook.tsx:32-54 | inserting into a sorted list keeps it sorted |
| BoardRanking.SortBoard | frontend/src/hooks/BoardHook.tsx:32 | the sort is a permutation of the fetched members |
| BoardRanking.SortBoardCorrect | frontend/src/hooks/BoardHook.tsx:32-54 | the result is sorted by the comparator and is a permutation of the input. Priorities are non-decreasing, and equal priorities are ordered by lowercased title |
| BoardRanking.UntitledLast | frontend/src/hooks/BoardHook.tsx:34 | after an untitled member every member is untitled |
| AuthSlice.InitialConsistent | frontend/src/store/slices/authSlice.ts:23-29 | the initial state has no user or token, is signed out, idle and error-free, and is consistent |
| AuthSlice.ApplyConsistent | frontend/src/store/slices/authSlice.ts:35-105 | every reducer keeps: authenticated exactly when a token is held, and then a user is held too |
| AuthSlice.ApplyAllConsistent | frontend/src/store/slices/authSlice.ts:35-105 | any sequence of actions keeps the store consistent |
| AuthSlice.ReachableConsistent | frontend/src/store/slices/authSlice.ts:23-105 | every state reachable from the initial one is consistent |
| AuthSlice.StartOnlyLoads | frontend/src/store/slices/authSlice.ts:35-38 | `loginStart` and `fetchUserStart` set loading, clear the error and change nothing else |
| AuthSlice.SuccessSignsIn | frontend/src/store/slices/authSlice.ts:39-55 | both successes sign the payload's user in with its token, idle and error-free. `loginSuccess` stores the token. `supabaseAuthSuccess` removes only the logged-out flag |
| AuthSlice.FailureSignsOut | frontend/src/store/slices/authSlice.ts:56-62 | both failures sign out, keep the message and stop loading. Only the fetch failure clears the token and session entries |
| AuthSlice.LogoutSignsOut | frontend/src/store/slices/authSlice.ts:63-81 | both logouts sign out, clear the error, drop the session entry and set the logged-out flag. Only `logout` drops the token entry |
| AuthSlice.LogoutIdempotent | frontend/src/store/slices/authSlice.ts:63-81 | logging out twice is logging out once |
| AuthSlice.SignInAfterLogout | frontend/src/store/slices/authSlice.ts:47-72 | a Supabase sign-in after a logout is authenticated and clears the logged-out flag |
| AuthSlice.SettersTouchOneField | frontend/src/store/slices/authSlice.ts:82-87 | `clearError` changes only the error and `updateUser` only the user |
| AuthSlice.AuthStore.constructor | frontend/src/store/slices/authSlice.ts:23-29 | the store starts in the initial state over the given storage |
| AuthSlice.AuthStore.LoginStart | frontend/src/store/slices/authSlice.ts:35-38 | the in-place update equals the `loginStart` reducer and keeps consistency |
| AuthSlice.AuthStore.LoginSuccess | frontend/src/store/slices/authSlice.ts:39-46 | equals the `loginSuccess` reducer; the store is consistent afterwards |
| AuthSlice.AuthStore.SupabaseAuthSuccess | frontend/src/store/slices/authSlice.ts:47-55 | equals the `supabaseAuthSuccess` reducer; consistent afterwards |
| AuthSlice.AuthStore.LoginFailure | frontend/src/store/slices/authSlice.ts:56-62 | equals the `loginFailure` reducer; consistent afterwards |
| AuthSlice.AuthStore.Logout | frontend/src/store/slices/authSlice.ts:63-72 | equals the `logout` reducer, including both storage removals and the flag; consistent afterwards |
| AuthSlice.AuthStore.SupabaseLogout | frontend/src/store/slices/authSlice.ts:73-81 | equals the `supabaseLogout` reducer; consistent afterwards |
| AuthSlice.AuthStore.ClearError | frontend/src/store/slices/authSlice.ts:82-84 | equals the `clearError` reducer and keeps consistency |
| AuthSlice.AuthStore.UpdateUser | frontend/src/store/slices/authSlice.ts:85-87 | equals the `updateUser` reducer and keeps consistency |
| AuthSlice.AuthStore.FetchUserStart | frontend/src/store/slices/authSlice.ts:88-91 | equals the `fetchUserStart` reducer and keeps consistency |
| AuthSlice.AuthStore.FetchUserSuccess | frontend/src/store/slices/authSlice.ts:92-96 | equals the `fetchUserSuccess` reducer and keeps consistency |
| AuthSlice.AuthStore.FetchUserFailure | frontend/src/store/slices/authSlice.ts:97-105 | equals the `fetchUserFailure` reducer, including both storage removals; consistent afterwards |
| StatusSlice.Toggled | frontend/src/store/slices/statusSlice.ts:25-27 | toggling always changes the theme |
| StatusSlice.ToggleInvolution | frontend/src/store/slices/statusSlice.ts:25-27 | toggling twice restores the theme |
| StatusSlice.ToggledTimesParity | frontend/src/store/slices/statusSlice.ts:25-27 | after n toggles the theme is the original exactly when n is even |
| StatusSlice.StatusStore.constructor | frontend/src/store/slices/statusSlice.ts:9-13 | not loading, on `home`, light theme |
| StatusSlice.StatusStore.SetLoading | frontend/src/store/slices/statusSlice.ts:19-21 | sets only the loading flag |
| StatusSlice.StatusStore.SetCurrentPage | frontend/src/store/slices/statusSlice.ts:22-24 | sets only the current page |
| StatusSlice.StatusStore.ToggleTheme | frontend/src/store/slices/statusSlice.ts:25-27 | light becomes dark and dark becomes light; nothing else changes |
| Text.JoinSplit | frontend/src/main.tsx:51-53 | joining the pieces of a split with the separator gives back the string |
| Text.SplitTailJoin | frontend/src/main.tsx:51-53 | the pieces after the first, joined with the separator, are the text after the first separator |
| SessionUser.SplitName | frontend/src/main.tsx:51-53 | the first name is the text before the first space and the last name everything after it |
| SessionUser.NamesPrecedence | frontend/src/main.tsx:46-66 | names come from `first_name` (with `last_name` or `''`), else `full_name`, else `name` (each split at the first space), else the email before `@`. Each source is tested for truthiness |
| SessionUser.SplitNameRoundTrip | frontend/src/main.tsx:51-58 | the first name has no space. With a space, first + " " + last is the name; without one, the whole name is the first name and the last name is empty |
| SessionUser.EmailFallback | frontend/src/main.tsx:63-65 | with no name in the metadata, the first name is the email's prefix before its first `@` (the whole email when there is none) and the last name is empty |
| SessionUser.ExtractUserData | frontend/src/main.tsx:69-80 | the record carries the session id and email, the derived names, `avatar_url` or `''`, verified exactly when `email_confirmed_at` is truthy, and the looked-up admin flag |
| SessionUser.FallbackUserData | frontend/src/main.tsx:86-98 | the error-path record is "User", with an empty last name and picture, unverified, the admin flag, and the current time as join date |
| SessionUser.FallbackAgreesOnIdentity | frontend/src/main.tsx:72-98 | both records agree on id, email and admin flag; the fallback never claims a verified email |
| EventForm.EventTypeName | frontend/src/pages/Admin/components/EventForm.tsx:28 | an event type loads as a non-empty, already trimmed name |
| EventForm.Load | frontend/src/pages/Admin/components/EventForm.tsx:21-32 | loading an event fills each field from it, with null fields as `''`; without an event the form is unchanged |
| EventForm.HandleChange | frontend/src/pages/Admin/components/EventForm.tsx:60-66 | only the named field takes the value |
| EventForm.HandleImageUploaded | frontend/src/pages/Admin/components/EventForm.tsx:68-73 | only the image changes |
| EventForm.HandleSubmit | frontend/src/pages/Admin/components/EventForm.tsx:34-58 | refused exactly when the title or event type is blank. Title and type are trimmed. Description and location are trimmed and null when empty. Date and image are null when empty and otherwise untrimmed. The id is present exactly when editing, and is the edited event's |
| EventForm.SubmitNormalises | frontend/src/pages/Admin/components/EventForm.tsx:43-51 | a submitted record has non-blank trimmed required fields, trimmed optional text, and no empty strings |
| EventForm.SubmitReloadRoundTrip | frontend/src/pages/Admin/components/EventForm.tsx:21-58 | submitting a form that shows a normalised record gives that record back |
| EventForm.SubmitIdempotent | frontend/src/pages/Admin/components/EventForm.tsx:34-58 | submitting, putting the result back in the form and submitting again gives the same record |
| EventForm.EditUnchangedRoundTrip | frontend/src/pages/Admin/components/EventForm.tsx:21-58 | loading a stored normalised event and submitting it unchanged returns its fields and id |
| MemberForm.Load | frontend/src/pages/Admin/components/MemberForm.tsx:21-32 | loading a member copies id, name and board, with null text fields as `''`; without a member the form is unchanged |
| MemberForm.HandleChange | frontend/src/pages/Admin/components/MemberForm.tsx:51-59 | a checkbox stores its checked state and a text input its value, and only that field changes |
| MemberForm.HandleImageUploaded | frontend/src/pages/Admin/components/MemberForm.tsx:61-66 | only the image changes |
| MemberForm.Submit | frontend/src/pages/Admin/components/MemberForm.tsx:34-49 | id, name and board are copied. Title, LinkedIn and image become null when empty and are otherwise unchanged, without trimming |
| MemberForm.LoadSubmitRoundTrip | frontend/src/pages/Admin/components/MemberForm.tsx:21-49 | loading what was submitted restores the form exactly |
| MemberForm.SubmitLoadRoundTrip | frontend/src/pages/Admin/components/MemberForm.tsx:21-49 | submitting a loaded member gives it back when no optional field is the empty string |
| MemberForm.EmptyFieldBecomesNull | frontend/src/pages/Admin/components/MemberForm.tsx:37-42 | an empty title does not survive the form: it comes back null |
| EventManagement.AddEvent | frontend/src/pages/Admin/components/EventManagement.tsx:30-39 | a created event is appended and the form closes; a failure keeps everything and sets the add error |
| EventManagement.EditEvent | frontend/src/pages/Admin/components/EventManagement.tsx:41-50 | events with the id are replaced by the returned event and the form closes; a failure sets the update error only |
| EventManagement.DeleteEvent | frontend/src/pages/Admin/components/EventManagement.tsx:52-63 | without confirmation nothing changes. A success drops the events with the id. A failure sets the delete error only |
| EventManagement.EditReplacesInPlace | frontend/src/pages/Admin/components/EventManagement.tsx:43-44 | an update keeps length and order; events with other ids stay and events with the id become the returned event |
| EventManagement.DeleteRemovesExactly | frontend/src/pages/Admin/components/EventManagement.tsx:58-59 | a delete leaves exactly the events with other ids, in their order |
| EventManagement.DeleteUndoesAdd | frontend/src/pages/Admin/components/EventManagement.tsx:30-59 | creating an event with a new id and deleting it restores the list |
| EventManagement.DeleteAfterEdit | frontend/src/pages/Admin/components/EventManagement.tsx:41-59 | deleting after an id-preserving update equals deleting directly |
| EventManagement.FailuresKeepList | frontend/src/pages/Admin/components/EventManagement.tsx:36-62 | a failed call or a declined confirmation never changes the list |
| MemberManagement.AddMember | frontend/src/pages/Admin/components/MemberManagement.tsx:30-39 | a created member is appended and the form closes; a failure sets the add error only |
| MemberManagement.EditMember | frontend/src/pages/Admin/components/MemberManagement.tsx:42-51 | members with the form's id are replaced by the submitted data itself; a failure sets the update error only |
| MemberManagement.DeleteMember | frontend/src/pages/Admin/components/MemberManagement.tsx:75-79 | a success drops the members with the id; a failure sets the delete error only |
| MemberManagement.EditReplacesInPlace | frontend/src/pages/Admin/components/MemberManagement.tsx:44-47 | an update keeps length and order; matching positions hold the submitted data and others are unchanged |
| MemberManagement.EditedMemberPresent | frontend/src/pages/Admin/components/MemberManagement.tsx:44-47 | after an update the submitted member is in the list exactly when it was already, or some member had its id |
| MemberManagement.DeleteRemovesExactly | frontend/src/pages/Admin/components/MemberManagement.tsx:75-76 | a delete leaves exactly the members with other ids, in their order |
| MemberManagement.DeleteUndoesAdd | frontend/src/pages/Admin/components/MemberManagement.tsx:30-76 | creating a member with a new id and deleting it restores the list |
| MemberManagement.PictureBucket.RemoveFolder | frontend/src/pages/Admin/components/MemberManagement.tsx:60-74 | the removal loop takes out exactly the listed pictures under the member's folder; a failed listing removes nothing |
| MemberManagement.HandleDeleteMember | frontend/src/pages/Admin/components/MemberManagement.tsx:53-80 | without confirmation nothing changes. With it, the pictures are removed first and then the list is updated as the delete outcome says |
| MemberManagement.RemovedPathsInFolder | frontend/src/pages/Admin/components/MemberManagement.tsx:60-74 | every removed path lies in the deleted member's folder |
| Serializers.ValidateName | backend/api/serializers.py:11-17 | a blank name is refused as empty. A non-blank name shorter than 2 (unstripped) is refused as too short. The name is accepted exactly when it is non-blank with raw length at least 2, and then the stripped name is returned |
| Serializers.ValidateNameShortStripped | backend/api/serializers.py:15-17 | called directly, `" a "` passes and is stored as the one-letter `"a"` |
| Serializers.ValidateNameStripped | backend/api/serializers.py:11-17 | with the length test on the stripped value, a name is accepted exactly when it strips to at least 2 characters |
| Serializers.ValidateNameStrippedStored | backend/api/serializers.py:11-17 | a stored name has at least 2 characters, no edge whitespace, and validates again as itself |
| Serializers.ValidateNameAgreement | backend/api/serializers.py:15-17 | the two versions differ exactly on names of raw length ≥ 2 that strip to one character |
| Serializers.ValidateLinkedIn | backend/api/serializers.py:19-23 | empty or missing passes. Otherwise it must start with `http://` or `https://`. An accepted value is returned unchanged |
| Serializers.ValidateTitle | backend/api/serializers.py:30-36 | a blank title is refused as empty. A non-blank title shorter than 3 (unstripped) is refused as too short. The title is accepted exactly when it is non-blank with raw length at least 3, and then the stripped title is returned |
| Serializers.ValidateTitleShortStripped | backend/api/serializers.py:34-36 | called directly, `" ab "` passes and is stored as the two-letter `"ab"` |
| Serializers.ValidateTitleStripped | backend/api/serializers.py:30-36 | with the length test on the stripped value, a title is accepted exactly when it strips to at least 3 characters |
| Serializers.ValidateTitleStrippedStored | backend/api/serializers.py:30-36 | a stored title has at least 3 characters, no edge whitespace, and validates again as itself |
| Serializers.ValidateEventType | backend/api/serializers.py:38-47 | blank is refused as required. It is accepted exactly when the stripped value is club, recruiting or featured, and the stripped value is stored |
| Serializers.ValidateEventTypeIdempotent | backend/api/serializers.py:38-47 | an accepted type validates again as itself |
| Serializers.StripOrEmpty | backend/api/serializers.py:51 | missing becomes `""`, otherwise the stripped value, with no edge whitespace |
| Serializers.ValidateDescription | backend/api/serializers.py:49-51 | never refuses; stores the stripped description or `""` |
| Serializers.ValidateLocation | backend/api/serializers.py:53-55 | never refuses; stores the stripped location or `""` |
| Serializers.StripOrEmptyIdempotent | backend/api/serializers.py:49-55 | stripping a stored value again changes nothing |
| Serializers.FieldValue | backend/api/serializers.py:62 | a month or day field spells a number from 1 to 31 |
| Serializers.ParseDateFields | backend/api/serializers.py:62 | a full pattern match yields a month 1-12, a day 1-31 and a non-negative year |
| Serializers.ParseDate | backend/api/serializers.py:62 | a parsed date is a real calendar date with year 1 to 9999 |
| Serializers.ValidateDate | backend/api/serializers.py:57-66 | refused, with the format message, exactly when the value is a non-empty string that does not parse. Anything accepted is returned unchanged |
| Serializers.FormatDateRoundTrip | backend/api/serializers.py:57-66 | every calendar date written as zero-padded `YYYY-MM-DD` is accepted and parses back to itself |
| Serializers.PadDigitsValue | backend/api/serializers.py:62 | a number below 10^w written with w zero-padded digits reads back as itself |
| Serializers.LooseDatesAccepted | backend/api/serializers.py:62 | `2024-1-5` and `2024-01- 5` are accepted as 5 January 2024 |
| Serializers.NoFebruary29In2023 | backend/api/serializers.py:62-65 | `2023-02-29` is refused |
| Serializers.February29In2024 | backend/api/serializers.py:62 | `2024-02-29` is accepted |
| Serializers.NoYearZero | backend/api/serializers.py:62-65 | year `0000` is refused |

## Left out

- Image decoding, canvas drawing and `toBlob` encoding are platform code. The encoder is a function parameter. Whether a 2-D context exists and whether the image loads are inputs.
- Floating point is not modelled. Quality is counted in tenths with an effective floor of 0.2, as explained above. `Math.floor(x * 0.85)` is `x * 85 / 100`.
- ImageResize.ResizeImageToFitSize: the trial list it returns is ghost, and the callback chain is a loop. The asynchronous scheduling of the `toBlob` callbacks is not modelled.
- ImageResize.UploadImage: the upload call itself, the public URL and the exact wording of the thrown messages are left out. The UUID is a parameter.
- The remaining Supabase and HTTP calls are not part of this model: CRUD, allowed emails, `uploadImageToSupabase`, the data hooks, the session restore and auth listener, and the backend views. Their outcomes enter as `ApiResult` parameters. The admin-status lookup in `extractUserDataFromSession` is a boolean parameter.
- `Date.now()` row ids and the current time are parameters.
- Whitespace means the ASCII space, tab, line feed, carriage return, vertical tab and form feed. Python's `strip()` also removes the separators U+001C to U+001F and Unicode spaces, and JavaScript's `trim()` removes Unicode spaces; neither is modelled. Lower-casing covers ASCII letters only.
- BoardRanking.SortBoard: `localeCompare` is replaced by code-point lexicographic order of the lowercased titles. The in-place `Array.sort` is an insertion sort on a sequence. Ties are inserted in input order, but stability is not stated as a proof.
- BreedSelection.ParseInt: numbers are unbounded, so the loss of precision of very long digit strings in `parseInt` is not modelled. Nor is the cut-off at `Number.MAX_VALUE`: a digit string above it (about 309 digits), which the input filter lets through, parses to `Infinity` in the source. `totalPercentage` then counts that row as 0 through `Number.isFinite`, and the pick filter in `handleSubmit` drops it. The model counts the full value in `BreedSelection.TotalOfDigitRows` and keeps the pick in `BreedSelection.PickOf`.
- BreedSelection.HandleSubmit: the `breed_type` load, the RPC call, the alerts and the navigation are left out. The outcome names the branch taken.
- Serializers.ValidateTitle: the value is modelled as a string. `Event.title` is a nullable column (backend/api/models.py:35), so Django REST framework passes an explicit null through to `validate_title`. There `value.strip()` raises `AttributeError`, a server error rather than a validation error; that path is not modelled.
- Serializers.ValidateDate: `\d` in Python's pattern also matches non-ASCII digits; only ASCII digits are modelled. The value reaching the validator is modelled as absent, a string, or some other object.
- MemberManagement.PictureBucket.RemoveFolder: the storage bucket is a set of paths. The folder listing, which the source caps at 100 entries, is an input (`None` when it failed). Failures of single removals are ignored, as in the source.
- The loading flags, spinners and error-clearing around the asynchronous admin calls are left out. Only the list, error, form-visibility and editing fields are modelled.
- The whole-state setter slices (board, event, member, feature, recruiting) only replace their state, and are not modelled.
- Rendering, routing, animations and theme class toggling on the document are not modelled.

## Findings

| source | as written | input that shows it | evidently intended | confidence | as-written member | corrected member |
|---|---|---|---|---|---|---|
| backend/api/serializers.py:15-17 | the minimum length is checked on the unstripped name, but the stripped name is stored | `validate_name(" a ")` called directly passes and stores `"a"`, a one-character name. Through `MemberSerializer` the model's `CharField` has `trim_whitespace` on, so `" a "` reaches the validator already stripped to `"a"` and is refused | a direct call also refuses names that strip to fewer than 2 characters, as the serializer path does | not executed | Serializers.ValidateNameShortStripped | Serializers.ValidateNameStrippedStored |
| backend/api/serializers.py:34-36 | the minimum length is checked on the unstripped title, but the stripped title is stored | `validate_title(" ab ")` called directly passes and stores `"ab"`, a two-character title. Through `EventSerializer` the `CharField` strips first, so `" ab "` arrives as `"ab"` and is refused | a direct call also refuses titles that strip to fewer than 3 characters, as the serializer path does | not executed | Serializers.ValidateTitleShortStripped | Serializers.ValidateTitleStrippedStored |
