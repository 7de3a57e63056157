/** The tutor profile store: lookups that raise NotFound, the rating writer,
    profile updates and profile creation. */
module Tutors {
  import opened Wrappers
  import opened Entities
  import opened Directory

  datatype CreateTutorDto = CreateTutorDto(
    usuarioId: UserId,
    materiasIds: seq<MateriaId>,
    descripcion: Option<string>,
    costoPorHora: Option<Cents>)

  datatype UpdateTutorDto = UpdateTutorDto(
    id: TutorId,
    descripcion: string,
    materias: seq<MateriaId>,
    costo: Cents)

  /** A subject as the profile view shows it. */
  datatype MateriaDto = MateriaDto(id: MateriaId, nombre: Option<string>)

  datatype TutorDto = TutorDto(
    id: TutorId,
    nombre: string,
    descripcion: Option<string>,
    materias: seq<MateriaDto>,
    costo: Cents,
    calificacion: real)

  /** The subjects of a profile as (id, nombre) pairs, in the same order. */
  function MateriasToDto(ms: seq<Materia>): (r: seq<MateriaDto>)
    ensures |r| == |ms|
    ensures forall i :: 0 <= i < |ms| ==> r[i].id == ms[i].id && r[i].nombre == ms[i].nombre
  {
    if ms == [] then [] else [MateriaDto(ms[0].id, ms[0].nombre)] + MateriasToDto(ms[1..])
  }

  /** The profile of `usuarioId` already taken by another tutor row: the
      one-to-one join column on the user is unique. */
  predicate UsuarioTaken(tutors: map<TutorId, Tutor>, usuarioId: UserId)
  {
    exists k :: k in tutors && tutors[k].usuario == usuarioId
  }

  class TutorService {
    var tutors: map<TutorId, Tutor>
    var nextId: TutorId

    /** Rows are keyed by their id, every id was handed out before, at most
        one profile per user, and the cost fits its column. */
    ghost predicate Valid()
      reads this
    {
      && (forall k :: k in tutors ==> tutors[k].id == k && k < nextId)
      && (forall j, k :: j in tutors && k in tutors && tutors[j].usuario == tutors[k].usuario ==> j == k)
      && (forall k :: k in tutors ==> FitsDecimal10x2(tutors[k].costoPorHora))
    }

    constructor ()
      ensures Valid() && tutors == map[]
    {
      tutors := map[];
      nextId := 0;
    }

    /** The tutor with that id; NotFound when there is none. */
    function FindById(id: TutorId): (r: Result<Tutor, Error>)
      reads this
      requires Valid()
      ensures r.Success? <==> id in tutors
      ensures r.Success? ==> r.value.id == id && r.value == tutors[id]
      ensures r.Failure? ==> r.error == NotFound
    {
      if id in tutors then Success(tutors[id]) else Failure(NotFound)
    }

    /** The tutor whose user has that id; NotFound when there is none. */
    method FindByUsuarioId(usuarioId: UserId) returns (r: Result<Tutor, Error>)
      requires Valid()
      ensures r.Success? <==> UsuarioTaken(tutors, usuarioId)
      ensures r.Success? ==> r.value.usuario == usuarioId && r.value.id in tutors && tutors[r.value.id] == r.value
      ensures r.Failure? ==> r.error == NotFound
    {
      var found := set k | k in tutors && tutors[k].usuario == usuarioId;
      if found == {} {
        assert !UsuarioTaken(tutors, usuarioId) by {
          forall k | k in tutors ensures tutors[k].usuario != usuarioId {
            assert k !in found;
          }
        }
        r := Failure(NotFound);
      } else {
        var k :| k in found;
        r := Success(tutors[k]);
      }
    }

    /** The profile view of the tutor of user `usuarioId`: the user's name, the
        subjects as (id, nombre) pairs in order, the cost and the rating. */
    method FindOne(usuarioId: UserId, auth: UserRepository) returns (r: Result<TutorDto, Error>)
      requires Valid() && auth.Valid()
      ensures !UsuarioTaken(tutors, usuarioId) ==> r == Failure(NotFound)
      ensures UsuarioTaken(tutors, usuarioId) && usuarioId !in auth.users ==> r == Failure(NullDereference)
      ensures r.Success? <==> UsuarioTaken(tutors, usuarioId) && usuarioId in auth.users
      ensures r.Success? ==> exists k :: k in tutors && tutors[k].usuario == usuarioId && ProfileView(r.value, tutors[k], auth.users[usuarioId])
    {
      var t := FindByUsuarioId(usuarioId);
      if t.Failure? {
        return Failure(t.error);
      }
      var tutor := t.value;
      var u := auth.FindUserById(tutor.usuario);
      if u.None? {
        return Failure(NullDereference);
      }
      r := Success(TutorDto(tutor.id, u.value.fullName, tutor.descripcion,
                            MateriasToDto(tutor.materias), tutor.costoPorHora, tutor.calificacion));
    }

    /** Sets the rating of tutor `id`; NotFound, and nothing changes, when
        there is no such tutor. */
    method UpdateCalificacion(id: TutorId, calificacion: real) returns (r: Result<Tutor, Error>)
      requires Valid()
      modifies this
      ensures Valid() && nextId == old(nextId)
      ensures id !in old(tutors) ==> r == Failure(NotFound) && tutors == old(tutors)
      ensures id in old(tutors) ==>
        && r == Success(old(tutors)[id].(calificacion := calificacion))
        && tutors == old(tutors)[id := r.value]
    {
      var t := FindById(id);
      if t.Failure? {
        return Failure(t.error);
      }
      var updated := t.value.(calificacion := calificacion);
      tutors := tutors[id := updated];
      r := Success(updated);
    }

    /** Replaces the subjects, the description and the cost of tutor
        `dto.id`; the id, the user and the rating stay. */
    method Update(dto: UpdateTutorDto, catalog: map<MateriaId, Materia>) returns (r: Result<Tutor, Error>)
      requires Valid() && MateriasKeyed(catalog)
      modifies this
      ensures Valid() && nextId == old(nextId)
      ensures dto.id !in old(tutors) ==> r == Failure(NotFound) && tutors == old(tutors)
      ensures dto.id in old(tutors) && !FitsDecimal10x2(dto.costo) ==>
        r == Failure(PersistenceFailure) && tutors == old(tutors)
      ensures dto.id in old(tutors) && FitsDecimal10x2(dto.costo) ==>
        && r == Success(old(tutors)[dto.id].(materias := FindByIds(catalog, dto.materias),
                                              descripcion := Some(dto.descripcion),
                                              costoPorHora := dto.costo))
        && tutors == old(tutors)[dto.id := r.value]
    {
      var t := FindById(dto.id);
      if t.Failure? {
        return Failure(t.error);
      }
      var updated := t.value.(materias := FindByIds(catalog, dto.materias),
                              descripcion := Some(dto.descripcion),
                              costoPorHora := dto.costo);
      if !FitsDecimal10x2(updated.costoPorHora) {
        return Failure(PersistenceFailure);
      }
      tutors := tutors[dto.id := updated];
      r := Success(updated);
    }

    /** Gives user `dto.usuarioId` the TUTOR role and a new profile. A missing
        user fails before anything is written. The role is saved before the
        profile, so when the profile row is refused (the user already has one,
        or the cost does not fit) the role stays appended. A missing user
        surfaces as InternalServerError; the profile save is returned without
        being awaited, so a refused profile row escapes that handler and
        surfaces as the database error itself. */
    method Create(dto: CreateTutorDto, auth: UserRepository, catalog: map<MateriaId, Materia>)
      returns (r: Result<Tutor, Error>)
      requires Valid() && auth.Valid() && MateriasKeyed(catalog)
      modifies this, auth
      ensures Valid() && auth.Valid()
      ensures dto.usuarioId !in old(auth.users) ==>
        r == Failure(InternalServerError) && tutors == old(tutors) && auth.users == old(auth.users)
      ensures dto.usuarioId in old(auth.users) ==>
        auth.users == old(auth.users)[dto.usuarioId := old(auth.users)[dto.usuarioId].(
                        roles := old(auth.users)[dto.usuarioId].roles + [TUTOR])]
      ensures dto.usuarioId in old(auth.users) &&
              (UsuarioTaken(old(tutors), dto.usuarioId) || !FitsDecimal10x2(dto.costoPorHora.GetOr(0))) ==>
        r == Failure(PersistenceFailure) && tutors == old(tutors)
      ensures dto.usuarioId in old(auth.users) &&
              !UsuarioTaken(old(tutors), dto.usuarioId) && FitsDecimal10x2(dto.costoPorHora.GetOr(0)) ==>
        && r == Success(Tutor(old(nextId), dto.usuarioId, FindByIds(catalog, dto.materiasIds),
                              dto.descripcion, dto.costoPorHora.GetOr(0), DefaultCalificacion))
        && old(nextId) !in old(tutors)
        && tutors == old(tutors)[old(nextId) := r.value]
    {
      var found := auth.FindUserById(dto.usuarioId);
      if found.None? {
        return Failure(InternalServerError);
      }
      var usuario := found.value.(roles := found.value.roles + [TUTOR]);
      var tutor := Tutor(nextId, usuario.id, FindByIds(catalog, dto.materiasIds),
                         dto.descripcion, dto.costoPorHora.GetOr(0), DefaultCalificacion);
      auth.UpdateUser(usuario);
      var taken := set k | k in tutors && tutors[k].usuario == tutor.usuario;
      if taken != {} || !FitsDecimal10x2(tutor.costoPorHora) {
        if taken != {} {
          var k :| k in taken;
          assert UsuarioTaken(tutors, dto.usuarioId);
        }
        return Failure(PersistenceFailure);
      }
      assert !UsuarioTaken(tutors, dto.usuarioId) by {
        forall k | k in tutors ensures tutors[k].usuario != dto.usuarioId {
          assert k !in taken;
        }
      }
      tutors := tutors[nextId := tutor];
      nextId := nextId + 1;
      r := Success(tutor);
    }
  }

  /** `v` is the view of profile `t` of user `u`. */
  predicate ProfileView(v: TutorDto, t: Tutor, u: User)
  {
    && v.id == t.id && v.nombre == u.fullName && v.descripcion == t.descripcion
    && |v.materias| == |t.materias|
    && (forall i :: 0 <= i < |t.materias| ==>
          v.materias[i].id == t.materias[i].id && v.materias[i].nombre == t.materias[i].nombre)
    && v.costo == t.costoPorHora && v.calificacion == t.calificacion
  }
}
