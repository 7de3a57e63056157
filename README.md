# Tutoring sessions and tutor ratings, modelled in Dafny

This project models the core of a tutoring-booking backend. Students request
tutoring sessions ("tutorías") from tutors. A tutor accepts or rejects a
request. An accepted session is completed by hand, or by a daily sweep once its
date has passed. Students then review completed sessions, and each new review
recomputes the tutor's rating ("calificación") from scratch.

Modules, one per source component:

- `Wrappers` (`wrappers.dfy`): `Option` for nullable columns and lookups that
  return null; `Result` for the exceptions a service raises.
- `Entities` (`entities.dfy`): the records `Tutoria`, `Review`, `Tutor`, `User`
  and `Materia`. Also the closed state type `Estado` (PENDIENTE, ACEPTADA,
  RECHAZADA, COMPLETADA), the error kinds and the `decimal(10, 2)` range.
- `Directory` (`directory.dfy`): the user table as a class (read, and written
  when a user becomes a tutor), and the subject catalogue as a map.
- `Tutors` (`tutors.dfy`): `TutorService`, a class that owns the map of tutor
  profiles.
- `Tutorias` (`tutorias.dfy`): `TutoriaService`, a class that owns the map of
  sessions. It covers the lifecycle operations, the sweep and the six listings.
- `Reviews` (`reviews.dfy`): `ReviewService`, a class that owns the append-only
  list of reviews, plus the mean of the ratings.
- `Scenarios` (`scenarios.dfy`): two client methods. The first accepts a completed
  session again. The second sweeps twice.

Conventions:

- Identifiers are `nat`. A fresh database uuid is modelled by a counter
  (`nextId`), or by the review's position in the list.
- The current time is a `now` parameter, in milliseconds, as a JavaScript
  `Date` compares.
- Money is an `int` number of hundredths, so that a column of scale 2 holds it
  exactly.

Where the code and the intended design differ, the model follows the code:

- Accepting and rejecting check no prior state (`src/tutoria/tutoria.service.ts:68`
  and `:83`). A second acceptance therefore succeeds, and a COMPLETADA session
  can go back to ACEPTADA. `Scenarios.ReacceptCompleted` shows both.
- Creating a session checks only the tutor. A well-formed subject or student
  id with no row behind it is stored as null. There is no "unreviewed completed session" gate.
- Cancellation has no service code, so it is not modelled.
- Manual completion compares the session date with JavaScript's `>`. For a null
  date, null counts as 0, so the guard lets a session with no date through
  whenever `now` is not before the epoch. The sweep never selects a null date,
  because SQL's `NULL < now` is not true.
- A missing session in accept, reject or finalize means dereferencing null, a
  TypeError. It is modelled as `Failure(NullDereference)`, with the store
  unchanged.
- Review creation neither bounds the rating nor rejects a second review of the
  same session. Both reviews are stored and both count in the mean.
- A tutor profile's user is a one-to-one join column, which is unique. In tutor
  creation the user's TUTOR role is saved before the profile row. A refused
  profile row therefore leaves the role appended. The profile save is returned
  without being awaited (`src/tutor/tutor.service.ts:47`), so its refusal escapes
  the handler that turns other failures into InternalServerError: the call
  fails with the database error, `Failure(PersistenceFailure)`. A missing user
  still fails with InternalServerError.
- Rejecting a session with the reason left out of the body leaves the stored
  reason as it was, because a save skips an undefined field; a reason sent as
  null clears it.

## Model

| member | source | states |
|---|---|---|
| `Entities.NewTutoria` | src/tutoria/entities/tutoria.entity.ts:32-55 | a new row is requested at the creation time, starts PENDIENTE with an offer of 0, and has every nullable column null |
| `Directory.UserRepository.FindUserById` | src/auth/auth.service.ts:219-228 | gives the user with that id, or null when there is none |
| `Directory.UserRepository.UpdateUser` | src/auth/auth.service.ts:230-237 | saving a user replaces the row with its id and keeps the table keyed by id |
| `Directory.FindMateria` | src/materia/materia.service.ts:49-51 | gives the subject with that id, or null |
| `Directory.FindByIds` | src/materia/materia.service.ts:90-92 | gives exactly the stored subjects whose ids are listed, each subject at most once, never more than were asked for |
| `Tutors.MateriasToDto` | src/tutor/tutor.service.ts:123-126 | the profile's subjects as (id, nombre) pairs, same count and same order |
| `Tutors.TutorService.FindById` | src/tutor/tutor.service.ts:137-145 | succeeds exactly when a tutor has that id and returns that tutor; NotFound otherwise |
| `Tutors.TutorService.FindByUsuarioId` | src/tutor/tutor.service.ts:156-164 | succeeds exactly when some tutor belongs to that user and returns a stored tutor of that user; NotFound otherwise |
| `Tutors.TutorService.FindOne` | src/tutor/tutor.service.ts:110-130 | the view of the user's profile: the user's name, the subjects in order as pairs, and the cost and rating copied; succeeds exactly when the user has a profile and the user row exists; NotFound without a profile, a null dereference without the user row |
| `Tutors.TutorService.UpdateCalificacion` | src/tutor/tutor.service.ts:171-175 | sets only the rating of the found tutor; NotFound with nothing changed otherwise |
| `Tutors.TutorService.Update` | src/tutor/tutor.service.ts:61-70 | replaces subjects, description and cost of the found tutor and keeps id, user and rating; NotFound, or a refused cost, changes nothing |
| `Tutors.TutorService.Create` | src/tutor/tutor.service.ts:32-54 | appends TUTOR to the user's roles without a duplicate check, then stores a new profile with the given subjects, description and cost (default 0); a missing user gives InternalServerError with nothing changed; an existing profile or a cost that does not fit gives the database error with the role appended and no profile stored; keeps one profile per user |
| `Tutorias.OverdueIsFinalizable` | src/tutoria/tutoria.service.ts:253-277 | every session the sweep selects also passes the manual completion guard |
| `Tutorias.NullDateGuards` | src/tutoria/tutoria.service.ts:253-277 | an accepted session with a null date passes the manual guard exactly when `now` is not before the epoch, and the sweep never selects it |
| `Tutorias.ExactDateGuards` | src/tutoria/tutoria.service.ts:253-277 | an accepted session dated exactly `now` passes the manual guard (strict `>`) but is not swept (strict `<`) |
| `Tutorias.SweepCompletesExactlyOverdue` | src/tutoria/tutoria.service.ts:252-263 | after a sweep a session is COMPLETADA exactly when it was overdue or already COMPLETADA; a swept session changes only its state; other sessions are untouched |
| `Tutorias.SweepLeavesNothingOverdue` | src/tutoria/tutoria.service.ts:253-262 | no ACEPTADA session dated before `now` remains after a sweep |
| `Tutorias.SweepIdempotent` | src/tutoria/tutoria.service.ts:253-262 | a second sweep with the same `now` changes no session |
| `Tutorias.InsertBySolicitud` | src/tutoria/tutoria.service.ts:107 | inserting into a list ordered by request date keeps it ordered and adds exactly that one session |
| `Tutorias.ConvertTutoriasToSolicitudTutoriaDto` | src/tutoria/tutoria.service.ts:224-242 | succeeds exactly when every session has its subject and student; then it keeps length and order and copies id, both dates, description, offer and the student, tutor and subject ids; otherwise it fails on the null reference |
| `Tutorias.ListingConverted` | src/tutoria/tutoria.service.ts:107-110 | converting rows that are the selected sessions in request-date order fails exactly when one selected session lacks its subject or student; otherwise it gives one entry per selected session, each copied from one of them, in ascending request date |
| `Tutorias.TutoriaService.FindOne` | src/tutoria/tutoria.service.ts:291-295 | gives the session with that id, or null |
| `Tutorias.TutoriaService.Create` | src/tutoria/tutoria.service.ts:33-57 | NotFound for an unknown tutor with nothing stored; otherwise stores exactly one new PENDIENTE session, requested at `now`, with the given subject (null when unknown), student (null when unknown), tutor, date, description and offer, and leaves the other sessions unchanged |
| `Tutorias.TutoriaService.AcceptTutoria` | src/tutoria/tutoria.service.ts:64-71 | sets that session to ACEPTADA from any state and changes nothing else; a missing session fails with nothing changed |
| `Tutorias.TutoriaService.RechazarTutoria` | src/tutoria/tutoria.service.ts:78-87 | sets that session to RECHAZADA from any state, with the sent reason (null when sent as null) or, when the reason is left out, the stored one, and changes nothing else; a missing session fails with nothing changed |
| `Tutorias.TutoriaService.FinalizarTutoria` | src/tutoria/tutoria.service.ts:269-284 | succeeds exactly when the session is ACEPTADA and its date is not after `now`, and then completes only that session; otherwise BadRequest with nothing changed |
| `Tutorias.TutoriaService.FinalizarTutoriasVencidas` | src/tutoria/tutoria.service.ts:252-263 | the loop leaves the store equal to one sweep of the old store: the overdue accepted sessions completed in place |
| `Tutorias.TutoriaService.Listing` | src/tutoria/tutoria.service.ts:97-108 | gives exactly the participant's sessions in the requested state, each once, in ascending order of request date |
| `Tutorias.TutoriaService.FindAllTutoringRequestsByTutor` | src/tutoria/tutoria.service.ts:94-111 | the tutor's PENDIENTE sessions, sorted by request date, converted to listing entries: it fails exactly when one of them lacks its subject or student, else one entry per session in ascending request date |
| `Tutorias.TutoriaService.FindAllTutoringRequestsByStudent` | src/tutoria/tutoria.service.ts:118-132 | the student's PENDIENTE sessions, sorted by request date, converted to listing entries: it fails exactly when one of them lacks its subject or student, else one entry per session in ascending request date |
| `Tutorias.TutoriaService.FindAllCompletedTutoringByTutor` | src/tutoria/tutoria.service.ts:139-153 | the tutor's COMPLETADA sessions, sorted by request date, converted to listing entries: it fails exactly when one of them lacks its subject or student, else one entry per session in ascending request date |
| `Tutorias.TutoriaService.FindAllActiveTutoringByTutor` | src/tutoria/tutoria.service.ts:160-174 | the tutor's ACEPTADA sessions, sorted by request date, converted to listing entries: it fails exactly when one of them lacks its subject or student, else one entry per session in ascending request date |
| `Tutorias.TutoriaService.FindAllActiveTutoringByStudent` | src/tutoria/tutoria.service.ts:181-195 | the student's ACEPTADA sessions, sorted by request date, converted to listing entries: it fails exactly when one of them lacks its subject or student, else one entry per session in ascending request date |
| `Tutorias.TutoriaService.FindAllCompletedTutoringByStudent` | src/tutoria/tutoria.service.ts:202-216 | the student's COMPLETADA sessions, sorted by request date, converted to listing entries: it fails exactly when one of them lacks its subject or student, else one entry per session in ascending request date |
| `Reviews.MeanBetween` | src/review/review.service.ts:50-52 | ratings that all lie between two bounds have a mean between those bounds |
| `Reviews.MeanWithinRange` | src/review/review.service.ts:50-52 | the recomputed rating lies between the lowest and the highest rating averaged |
| `Reviews.MeanOfFourFiveThree` | src/review/review.service.ts:50-52 | existing ratings 4 and 5 and a new 3 average to 4 |
| `Reviews.ReviewsOfTutor` | src/review/review.service.ts:64-70 | exactly the stored reviews whose session belongs to the tutor, following each review's link to its session |
| `Reviews.ReviewsOfTutorAppend` | src/review/review.service.ts:46-48 | a newly saved review joins the end of its own tutor's list, so that list is non-empty, and other tutors' lists are unchanged |
| `Reviews.SecondReviewCountedAgain` | src/review/review.service.ts:30-46 | two reviews of the same session are both in the tutor's list |
| `Reviews.ReviewsToReviewsDTO` | src/review/review.service.ts:96-107 | succeeds exactly when every review's student is stored; it then keeps length and order and copies id, rating, comment and session, naming the student |
| `Reviews.ReviewService.FindAllByTutorId` | src/review/review.service.ts:64-73 | lists only reviews of that tutor's sessions, carrying exactly their ratings |
| `Reviews.ReviewService.Create` | src/review/review.service.ts:30-57 | an unknown session, a session not COMPLETADA or an unknown student fails with the source's message and stores nothing and writes no rating; otherwise it appends exactly one review and sets the tutor's rating to the mean of all that tutor's reviews, the new one included (never an empty list); it does not modify the session |
| `Reviews.KnownReviewersListCleanly` | src/review/review.service.ts:96-107 | when every stored review names a stored student, a tutor's review listing cannot fail |

## Left out

- Cancellation: the controller calls cancel operations that have no body in the service, so there is nothing to model.
- Authentication, password hashing, tokens and the welcome e-mail queue are foreign libraries and I/O.
- HTTP controllers, module wiring and DTO validation decorators are framework code. The model takes already-validated inputs.
- Cron scheduling and the Bogotá time zone: the sweep is a method that takes `now`. Concurrency between the sweep and requests is not modelled.
- The tutor search (`findAll` with SQL `LIKE`), subject CRUD and the review stubs (`findAll`, `findOne`, `update`, `remove`) return placeholder strings or are plain CRUD.
- Floating-point and decimal rounding: the rating is an exact `real` mean. The `decimal(2, 1)` rounding and range of the rating column are not modelled.
- Money inputs are taken as whole hundredths. The database rounding a JavaScript number to two decimals is not modelled. Only the range of `decimal(10, 2)` is checked, and saving refuses a value outside it.
- Non-integer ratings (the integer rating column refusing `4.5`) are not modelled: ratings are `int`.
- Display names in the session listings (student, tutor and subject names) are joins. A listing entry carries the identifiers only.
- The order of rows that SQL leaves unspecified is not modelled: sessions with equal request dates, the subjects returned by `findByIds`, and reviews (kept in insertion order). The tutor's `activo` flag is not modelled.
- Directory.FindByIds: does not state the order of the subjects it returns, because the database gives no order.
- Tutors.TutorService.FindByUsuarioId: states that the returned tutor is one of the user's profiles. That it is the only one follows from the one-profile-per-user invariant in `Valid`.
- Tutorias.TutoriaService.Create: requires the subject catalogue to be keyed by subject id, as the table is.
- Directory.FindByIds: requires the subject catalogue to be keyed by subject id, as the table is; `Tutors.TutorService.Update` and `Tutors.TutorService.Create` pass that requirement on.
- Identifiers are taken to be well-formed uuids. A malformed id makes the user lookup raise InternalServerError and the subject lookup raise a query error; neither is modelled.
- Reviews.ReviewService.FindAllByTutorId: states the ratings and sessions of the listed reviews, not the full review records; `ReviewsToReviewsDTO` states the rest.
