/** The records the services store and exchange: users, subjects ("materias"),
    tutor profiles, tutoring sessions ("tutorias") and reviews. */
module Entities {
  import opened Wrappers

  type UserId = nat
  type MateriaId = nat
  type TutorId = nat
  type SessionId = nat
  type ReviewId = nat

  /** Milliseconds since the epoch, the number a JavaScript `Date` compares as. */
  type Timestamp = int

  /** An amount of money in hundredths: the columns hold decimals of scale 2. */
  type Cents = int

  /** Largest magnitude a `decimal(10, 2)` column holds, in hundredths
      (99999999.99). */
  const MaxDecimal10x2: Cents := 9_999_999_999

  predicate FitsDecimal10x2(v: Cents) {
    -MaxDecimal10x2 <= v <= MaxDecimal10x2
  }

  /** The states a session takes in the service code. */
  datatype Estado = PENDIENTE | ACEPTADA | RECHAZADA | COMPLETADA

  datatype Role = ESTUDIANTE | TUTOR | ADMIN | USER

  /** The exceptions the services raise. */
  datatype Error =
    | NotFound             // NotFoundException
    | BadRequest           // BadRequestException
    | InternalServerError  // InternalServerErrorException
    | NullDereference      // a TypeError: a field read or written on null
    | PersistenceFailure   // the database refuses the row
    | Failed(message: string)  // a plain Error with this message

  datatype User = User(id: UserId, fullName: string, roles: seq<Role>)

  datatype Materia = Materia(id: MateriaId, nombre: Option<string>)

  datatype Tutor = Tutor(
    id: TutorId,
    usuario: UserId,
    materias: seq<Materia>,
    descripcion: Option<string>,
    costoPorHora: Cents,
    calificacion: real)

  /** The default `calificacion` of a new tutor profile. */
  const DefaultCalificacion: real := 0.0

  /** A tutoring session. The subject and the student are nullable references:
      creation stores whatever the lookups returned, null included. */
  datatype Tutoria = Tutoria(
    id: SessionId,
    materia: Option<MateriaId>,
    estudiante: Option<UserId>,
    tutor: TutorId,
    fechaSolicitud: Timestamp,
    fechaTutoria: Option<Timestamp>,
    descripcion: Option<string>,
    valorOferta: Cents,
    estado: Estado,
    motivoRechazo: Option<string>,
    motivoCancelacion: Option<string>)

  /** The row a fresh session gets from its column defaults when saved at `now`
      with only its tutor set: requested at `now`, PENDIENTE, an offer of 0 and
      every nullable column null. */
  function NewTutoria(id: SessionId, tutor: TutorId, now: Timestamp): (t: Tutoria)
    ensures t.id == id && t.tutor == tutor && t.fechaSolicitud == now
    ensures t.estado == PENDIENTE && t.valorOferta == 0
    ensures t.materia.None? && t.estudiante.None? && t.fechaTutoria.None?
    ensures t.descripcion.None? && t.motivoRechazo.None? && t.motivoCancelacion.None?
  {
    Tutoria(id, None, None, tutor, now, None, None, 0, PENDIENTE, None, None)
  }

  datatype Review = Review(
    id: ReviewId,
    calificacion: int,
    comentario: string,
    tutoria: SessionId,
    estudiante: UserId)
}
