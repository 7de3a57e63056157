/** Reviews of completed sessions and the tutor's rating, recomputed from
    scratch as the mean of every review on the tutor's sessions. */
module Reviews {
  import opened Wrappers
  import opened Entities
  import opened Directory
  import opened Tutors
  import opened Tutorias

  datatype CreateReviewDto = CreateReviewDto(
    calificacion: int,
    comentario: string,
    tutoria: SessionId,
    estudiante: UserId)

  /** A review as the listing shows it: the student appears by name. */
  datatype ReviewDto = ReviewDto(
    id: ReviewId,
    calificacion: int,
    comentario: string,
    tutoria: SessionId,
    estudiante: string)

  const TutoriaNoEncontrada: string := "Tutoria no encontrada"
  const TutoriaNoCompletada: string := "La tutoría no ha sido completada"
  const EstudianteNoEncontrado: string := "Estudiante no encontrado"

  // ---------------------------------------------------------------------------
  // The mean of the ratings

  function Sum(xs: seq<int>): int
  {
    if xs == [] then 0 else xs[0] + Sum(xs[1..])
  }

  /** The ratings summed and divided by their count. */
  function Mean(xs: seq<int>): real
    requires |xs| > 0
  {
    Sum(xs) as real / |xs| as real
  }

  function Min(xs: seq<int>): (m: int)
    requires |xs| > 0
    ensures m in xs && forall i :: 0 <= i < |xs| ==> m <= xs[i]
  {
    if |xs| == 1 then xs[0]
    else
      var rest := Min(xs[1..]);
      if xs[0] <= rest then xs[0] else rest
  }

  function Max(xs: seq<int>): (m: int)
    requires |xs| > 0
    ensures m in xs && forall i :: 0 <= i < |xs| ==> xs[i] <= m
  {
    if |xs| == 1 then xs[0]
    else
      var rest := Max(xs[1..]);
      if xs[0] >= rest then xs[0] else rest
  }

  lemma {:induction false} SumBetween(xs: seq<int>, lo: int, hi: int)
    requires forall i :: 0 <= i < |xs| ==> lo <= xs[i] <= hi
    ensures |xs| as real * lo as real <= Sum(xs) as real <= |xs| as real * hi as real
  {
    if xs != [] {
      var n := |xs[1..]| as real;
      SumBetween(xs[1..], lo, hi);
      assert |xs| as real * lo as real == lo as real + n * lo as real;
      assert |xs| as real * hi as real == hi as real + n * hi as real;
    }
  }

  lemma QuotientBetween(s: real, n: real, lo: real, hi: real)
    requires n > 0.0 && n * lo <= s <= n * hi
    ensures lo <= s / n <= hi
  {
    assert s / n - lo == (s - n * lo) / n;
    assert hi - s / n == (n * hi - s) / n;
  }

  /** Ratings bounded by `lo` and `hi` have a mean bounded by them. */
  lemma MeanBetween(xs: seq<int>, lo: int, hi: int)
    requires |xs| > 0
    requires forall i :: 0 <= i < |xs| ==> lo <= xs[i] <= hi
    ensures lo as real <= Mean(xs) <= hi as real
  {
    SumBetween(xs, lo, hi);
    QuotientBetween(Sum(xs) as real, |xs| as real, lo as real, hi as real);
  }

  /** The mean lies between the lowest and the highest rating. */
  lemma MeanWithinRange(xs: seq<int>)
    requires |xs| > 0
    ensures Min(xs) as real <= Mean(xs) <= Max(xs) as real
  {
    MeanBetween(xs, Min(xs), Max(xs));
  }

  /** Existing ratings 4 and 5 and a new 3 give 4. */
  lemma MeanOfFourFiveThree()
    ensures Mean([4, 5, 3]) == 4.0
  {
    assert Sum([4, 5, 3]) == 12 by {
      assert [4, 5, 3][1..] == [5, 3];
      assert [5, 3][1..] == [3];
    }
  }

  // ---------------------------------------------------------------------------
  // The reviews of a tutor

  /** Review `x` rates a session of tutor `tutorId`. */
  predicate OfTutor(x: Review, tutorias: map<SessionId, Tutoria>, tutorId: TutorId)
  {
    x.tutoria in tutorias && tutorias[x.tutoria].tutor == tutorId
  }

  /** The reviews on sessions of tutor `tutorId`, in stored order. */
  function ReviewsOfTutor(rs: seq<Review>, tutorias: map<SessionId, Tutoria>, tutorId: TutorId): (r: seq<Review>)
    ensures |r| <= |rs|
    ensures forall x :: x in r <==> x in rs && OfTutor(x, tutorias, tutorId)
  {
    if rs == [] then []
    else (if OfTutor(rs[0], tutorias, tutorId) then [rs[0]] else []) + ReviewsOfTutor(rs[1..], tutorias, tutorId)
  }

  /** Storing one more review adds it to its own tutor's list, at the end,
      and leaves every other tutor's list as it was. */
  lemma {:induction false} ReviewsOfTutorAppend(rs: seq<Review>, x: Review, tutorias: map<SessionId, Tutoria>, tutorId: TutorId)
    ensures ReviewsOfTutor(rs + [x], tutorias, tutorId) ==
      ReviewsOfTutor(rs, tutorias, tutorId) + (if OfTutor(x, tutorias, tutorId) then [x] else [])
  {
    if rs == [] {
      assert rs + [x] == [x];
      assert [x][1..] == [];
    } else {
      assert (rs + [x])[1..] == rs[1..] + [x];
      ReviewsOfTutorAppend(rs[1..], x, tutorias, tutorId);
    }
  }

  /** Nothing stops a second review of the same session: both are counted. */
  lemma SecondReviewCountedAgain(rs: seq<Review>, x: Review, y: Review, tutorias: map<SessionId, Tutoria>)
    requires x.tutoria == y.tutoria && x.tutoria in tutorias
    ensures ReviewsOfTutor(rs + [x] + [y], tutorias, tutorias[x.tutoria].tutor) ==
      ReviewsOfTutor(rs, tutorias, tutorias[x.tutoria].tutor) + [x, y]
  {
    var t := tutorias[x.tutoria].tutor;
    ReviewsOfTutorAppend(rs, x, tutorias, t);
    ReviewsOfTutorAppend(rs + [x], y, tutorias, t);
  }

  function Ratings(rs: seq<Review>): (r: seq<int>)
    ensures |r| == |rs| && forall i :: 0 <= i < |rs| ==> r[i] == rs[i].calificacion
  {
    if rs == [] then [] else [rs[0].calificacion] + Ratings(rs[1..])
  }

  /** Every review's student is a stored user. */
  predicate ReviewersKnown(rs: seq<Review>, users: map<UserId, User>)
  {
    forall i :: 0 <= i < |rs| ==> rs[i].estudiante in users
  }

  /** `d` is the listing entry of review `x`, its student named from `users`. */
  predicate ReviewCopied(d: ReviewDto, x: Review, users: map<UserId, User>)
  {
    && x.estudiante in users
    && d.id == x.id && d.calificacion == x.calificacion && d.comentario == x.comentario
    && d.tutoria == x.tutoria && d.estudiante == users[x.estudiante].fullName
  }

  /** The listing entries of `rs`, in order; reading the name of a student
      that is not stored fails. */
  function ReviewsToReviewsDTO(rs: seq<Review>, users: map<UserId, User>): (r: Result<seq<ReviewDto>, Error>)
    ensures r.Success? <==> ReviewersKnown(rs, users)
    ensures r.Failure? ==> r.error == NullDereference
    ensures r.Success? ==> |r.value| == |rs| && forall i :: 0 <= i < |rs| ==> ReviewCopied(r.value[i], rs[i], users)
  {
    if rs == [] then Success([])
    else if rs[0].estudiante !in users then Failure(NullDereference)
    else
      var rest := ReviewsToReviewsDTO(rs[1..], users);
      if rest.Failure? then
        assert !ReviewersKnown(rs[1..], users);
        rest
      else
        var x := rs[0];
        Success([ReviewDto(x.id, x.calificacion, x.comentario, x.tutoria, users[x.estudiante].fullName)] + rest.value)
  }

  /** The checks that precede storing a review: the session exists and is
      COMPLETADA, and the student exists. */
  predicate Admissible(dto: CreateReviewDto, tutorias: map<SessionId, Tutoria>, users: map<UserId, User>)
  {
    dto.tutoria in tutorias && tutorias[dto.tutoria].estado == COMPLETADA && dto.estudiante in users
  }

  // ---------------------------------------------------------------------------
  // The service

  class ReviewService {
    var reviews: seq<Review>

    /** Each review's id is its position: reviews are only ever added. */
    ghost predicate Valid()
      reads this
    {
      forall i :: 0 <= i < |reviews| ==> reviews[i].id == i
    }

    constructor ()
      ensures Valid() && reviews == []
    {
      reviews := [];
    }

    /** The reviews on sessions of tutor `tutorId`. */
    function FindAllByTutorId(tutorId: TutorId, tutoriaService: TutoriaService, auth: UserRepository)
      : (r: Result<seq<ReviewDto>, Error>)
      reads this, tutoriaService, auth
      ensures r.Success? <==> ReviewersKnown(ReviewsOfTutor(reviews, tutoriaService.tutorias, tutorId), auth.users)
      ensures r.Success? ==>
        && |r.value| == |ReviewsOfTutor(reviews, tutoriaService.tutorias, tutorId)|
        && (forall i :: 0 <= i < |r.value| ==>
              r.value[i].calificacion == ReviewsOfTutor(reviews, tutoriaService.tutorias, tutorId)[i].calificacion)
        && forall i :: 0 <= i < |r.value| ==>
             r.value[i].tutoria in tutoriaService.tutorias && tutoriaService.tutorias[r.value[i].tutoria].tutor == tutorId
    {
      var rs := ReviewsOfTutor(reviews, tutoriaService.tutorias, tutorId);
      assert forall i :: 0 <= i < |rs| ==> rs[i] in rs;
      ReviewsToReviewsDTO(rs, auth.users)
    }

    /** Stores a review of a COMPLETADA session by a stored student, then sets
        the rating of the session's tutor to the mean of every review on that
        tutor's sessions, the new one included. A failed check stores nothing
        and writes no rating. */
    method Create(dto: CreateReviewDto, tutoriaService: TutoriaService, auth: UserRepository,
                  tutorService: TutorService)
      returns (r: Result<Tutor, Error>)
      requires Valid() && tutoriaService.Valid() && auth.Valid() && tutorService.Valid()
      modifies this, tutorService
      ensures Valid() && tutorService.Valid() && tutorService.nextId == old(tutorService.nextId)
      ensures dto.tutoria !in tutoriaService.tutorias ==>
        r == Failure(Failed(TutoriaNoEncontrada))
      ensures dto.tutoria in tutoriaService.tutorias && tutoriaService.tutorias[dto.tutoria].estado != COMPLETADA ==>
        r == Failure(Failed(TutoriaNoCompletada))
      ensures dto.tutoria in tutoriaService.tutorias && tutoriaService.tutorias[dto.tutoria].estado == COMPLETADA &&
              dto.estudiante !in auth.users ==>
        r == Failure(Failed(EstudianteNoEncontrado))
      ensures !Admissible(dto, tutoriaService.tutorias, auth.users) ==>
        reviews == old(reviews) && tutorService.tutors == old(tutorService.tutors)
      ensures Admissible(dto, tutoriaService.tutorias, auth.users) ==>
        reviews == old(reviews) + [Review(|old(reviews)|, dto.calificacion, dto.comentario, dto.tutoria, dto.estudiante)]
      ensures Admissible(dto, tutoriaService.tutorias, auth.users) ==>
        var tutorId := tutoriaService.tutorias[dto.tutoria].tutor;
        var mine := ReviewsOfTutor(reviews, tutoriaService.tutorias, tutorId);
        && |mine| > 0
        && (!ReviewersKnown(mine, auth.users) ==>
              r == Failure(NullDereference) && tutorService.tutors == old(tutorService.tutors))
        && (ReviewersKnown(mine, auth.users) && tutorId !in old(tutorService.tutors) ==>
              r == Failure(NotFound) && tutorService.tutors == old(tutorService.tutors))
        && (ReviewersKnown(mine, auth.users) && tutorId in old(tutorService.tutors) ==>
              && r == Success(old(tutorService.tutors)[tutorId].(calificacion := Mean(Ratings(mine))))
              && tutorService.tutors == old(tutorService.tutors)[tutorId := r.value])
      ensures ReviewersKnown(old(reviews), auth.users) ==> ReviewersKnown(reviews, auth.users)
    {
      var tutoria := tutoriaService.FindOne(dto.tutoria);
      if tutoria.None? {
        return Failure(Failed(TutoriaNoEncontrada));
      }
      if tutoria.value.estado != COMPLETADA {
        return Failure(Failed(TutoriaNoCompletada));
      }
      var estudiante := auth.FindUserById(dto.estudiante);
      if estudiante.None? {
        return Failure(Failed(EstudianteNoEncontrado));
      }
      var review := Review(|reviews|, dto.calificacion, dto.comentario, tutoria.value.id, estudiante.value.id);
      reviews := reviews + [review];
      var tutorId := tutoria.value.tutor;
      ReviewsOfTutorAppend(old(reviews), review, tutoriaService.tutorias, tutorId);
      var listed := FindAllByTutorId(tutorId, tutoriaService, auth);
      if listed.Failure? {
        return Failure(listed.error);
      }
      var ds := listed.value;
      var ratings := seq(|ds|, i requires 0 <= i < |ds| => ds[i].calificacion);
      assert ratings == Ratings(ReviewsOfTutor(reviews, tutoriaService.tutorias, tutorId));
      var promedio := Sum(ratings) as real / |ratings| as real;
      r := tutorService.UpdateCalificacion(tutorId, promedio);
    }
  }

  /** When every stored review names a stored student, the listing of a tutor
      never fails, so an admissible review always writes the mean. */
  lemma KnownReviewersListCleanly(rs: seq<Review>, tutorias: map<SessionId, Tutoria>, tutorId: TutorId, users: map<UserId, User>)
    requires ReviewersKnown(rs, users)
    ensures ReviewsToReviewsDTO(ReviewsOfTutor(rs, tutorias, tutorId), users).Success?
  {
    var mine := ReviewsOfTutor(rs, tutorias, tutorId);
    forall i | 0 <= i < |mine| ensures mine[i].estudiante in users {
      assert mine[i] in mine;
    }
  }
}
