/** The tutoring-session store and its lifecycle: creation, acceptance,
    rejection, manual completion, the daily sweep of overdue sessions and the
    six listings by participant and state. */
module Tutorias {
  import opened Wrappers
  import opened Entities
  import opened Directory
  import opened Tutors

  datatype CreateTutoriaDto = CreateTutoriaDto(
    materiaId: MateriaId,
    estudianteId: UserId,
    tutorId: TutorId,
    fechaTutoria: Timestamp,
    descripcion: string,
    valorOferta: Cents)

  /** An optional field of a request body: left out of the body, or sent
      with a value that may be null. A save skips a field that was left out,
      so the column keeps what it held. */
  datatype BodyField<T> = Omitted | Sent(value: Option<T>)

  /** A session as the listings show it. */
  datatype SolicitudTutoriaDto = SolicitudTutoriaDto(
    id: SessionId,
    fechaSolicitud: Timestamp,
    fechaTutoria: Option<Timestamp>,
    descripcion: Option<string>,
    valorOferta: Cents,
    estudianteId: UserId,
    tutorId: TutorId,
    materiaId: MateriaId)

  /** Whose sessions a listing shows. */
  datatype Participant = AsTutor(tutorId: TutorId) | AsStudent(studentId: UserId)

  predicate Matches(t: Tutoria, p: Participant, estado: Estado)
  {
    && t.estado == estado
    && match p
       case AsTutor(id) => t.tutor == id
       case AsStudent(id) => t.estudiante == Some(id)
  }

  /** Every row sits under its own id. */
  ghost predicate KeyedById(m: map<SessionId, Tutoria>)
  {
    forall k :: k in m ==> m[k].id == k
  }

  // ---------------------------------------------------------------------------
  // Dates

  /** JavaScript's `fecha > now` on a nullable Date: null converts to 0. */
  predicate JsAfter(fecha: Option<Timestamp>, now: Timestamp)
  {
    match fecha
    case None => 0 > now
    case Some(t) => t > now
  }

  /** The guard of manual completion: the date is not after `now` (as
      JavaScript compares it) and the session is ACEPTADA. */
  predicate Finalizable(t: Tutoria, now: Timestamp)
  {
    !JsAfter(t.fechaTutoria, now) && t.estado == ACEPTADA
  }

  /** The filter of the sweep: ACEPTADA with a date strictly before `now`. A
      null date never matches, as SQL's `NULL < now` is not true. */
  predicate Overdue(t: Tutoria, now: Timestamp)
  {
    t.estado == ACEPTADA && t.fechaTutoria.Some? && t.fechaTutoria.value < now
  }

  lemma OverdueIsFinalizable(t: Tutoria, now: Timestamp)
    ensures Overdue(t, now) ==> Finalizable(t, now)
  {
  }

  /** A null date passes the manual guard at every `now` from the epoch on,
      and is never swept. */
  lemma NullDateGuards(t: Tutoria, now: Timestamp)
    requires t.fechaTutoria.None? && t.estado == ACEPTADA
    ensures Finalizable(t, now) <==> now >= 0
    ensures !Overdue(t, now)
  {
  }

  /** A session dated exactly `now` may be completed by hand but is left by
      the sweep. */
  lemma ExactDateGuards(t: Tutoria, now: Timestamp)
    requires t.fechaTutoria == Some(now) && t.estado == ACEPTADA
    ensures Finalizable(t, now) && !Overdue(t, now)
  {
  }

  // ---------------------------------------------------------------------------
  // The sweep

  /** The sessions the sweep selects. */
  ghost function OverdueIds(m: map<SessionId, Tutoria>, now: Timestamp): set<SessionId>
  {
    set k | k in m && Overdue(m[k], now)
  }

  /** `m` with the sessions `ids` set to COMPLETADA. */
  ghost function CompletedAmong(m: map<SessionId, Tutoria>, ids: set<SessionId>): map<SessionId, Tutoria>
  {
    map k | k in m :: if k in ids then m[k].(estado := COMPLETADA) else m[k]
  }

  /** The store after one sweep at `now`. */
  ghost function Swept(m: map<SessionId, Tutoria>, now: Timestamp): map<SessionId, Tutoria>
  {
    CompletedAmong(m, OverdueIds(m, now))
  }

  /** After the sweep exactly the overdue sessions and those already
      COMPLETADA are COMPLETADA; a swept session changes only its state, and
      every other session is untouched. */
  lemma SweepCompletesExactlyOverdue(m: map<SessionId, Tutoria>, now: Timestamp)
    ensures Swept(m, now).Keys == m.Keys
    ensures forall k :: k in m ==>
      (Swept(m, now)[k].estado == COMPLETADA <==> Overdue(m[k], now) || m[k].estado == COMPLETADA)
    ensures forall k :: k in m && Overdue(m[k], now) ==> Swept(m, now)[k] == m[k].(estado := COMPLETADA)
    ensures forall k :: k in m && !Overdue(m[k], now) ==> Swept(m, now)[k] == m[k]
  {
  }

  /** No session is overdue after a sweep. */
  lemma SweepLeavesNothingOverdue(m: map<SessionId, Tutoria>, now: Timestamp)
    ensures OverdueIds(Swept(m, now), now) == {}
  {
  }

  /** A second sweep at the same `now` changes nothing. */
  lemma SweepIdempotent(m: map<SessionId, Tutoria>, now: Timestamp)
    ensures Swept(Swept(m, now), now) == Swept(m, now)
  {
    SweepLeavesNothingOverdue(m, now);
  }

  // ---------------------------------------------------------------------------
  // Listings

  predicate SortedBySolicitud(s: seq<Tutoria>)
  {
    forall i, j :: 0 <= i < j < |s| ==> s[i].fechaSolicitud <= s[j].fechaSolicitud
  }

  lemma PrependSorted(x: Tutoria, s: seq<Tutoria>)
    requires SortedBySolicitud(s)
    requires forall i :: 0 <= i < |s| ==> x.fechaSolicitud <= s[i].fechaSolicitud
    ensures SortedBySolicitud([x] + s)
  {
  }

  /** `t` inserted into `s`, kept in ascending order of request date. */
  function InsertBySolicitud(s: seq<Tutoria>, t: Tutoria): (r: seq<Tutoria>)
    requires SortedBySolicitud(s)
    ensures SortedBySolicitud(r)
    ensures multiset(r) == multiset(s) + multiset{t}
  {
    if s == [] then [t]
    else if t.fechaSolicitud <= s[0].fechaSolicitud then [t] + s
    else
      var rest := InsertBySolicitud(s[1..], t);
      assert s == [s[0]] + s[1..];
      assert forall i :: 0 <= i < |rest| ==> s[0].fechaSolicitud <= rest[i].fechaSolicitud by {
        forall i | 0 <= i < |rest| ensures s[0].fechaSolicitud <= rest[i].fechaSolicitud {
          assert rest[i] in multiset(rest);
        }
      }
      PrependSorted(s[0], rest);
      [s[0]] + rest
  }

  /** The sessions among `keys` that a listing for `p` and `estado` shows. */
  ghost function SelectedAmong(m: map<SessionId, Tutoria>, keys: set<SessionId>, p: Participant, estado: Estado): set<Tutoria>
  {
    set k | k in keys && k in m && Matches(m[k], p, estado) :: m[k]
  }

  /** The sessions a listing for `p` and `estado` shows. */
  ghost function Selected(m: map<SessionId, Tutoria>, p: Participant, estado: Estado): set<Tutoria>
  {
    SelectedAmong(m, m.Keys, p, estado)
  }

  lemma SelectedAmongStep(m: map<SessionId, Tutoria>, done: set<SessionId>, k: SessionId, p: Participant, estado: Estado)
    requires KeyedById(m) && k in m && k !in done
    ensures multiset(SelectedAmong(m, done + {k}, p, estado)) ==
      multiset(SelectedAmong(m, done, p, estado)) + (if Matches(m[k], p, estado) then multiset{m[k]} else multiset{})
  {
    var before, after := SelectedAmong(m, done, p, estado), SelectedAmong(m, done + {k}, p, estado);
    if Matches(m[k], p, estado) {
      assert after == before + {m[k]};
      assert m[k] !in before;
    } else {
      assert after == before;
    }
  }

  /** Both references a listing entry reads are present. */
  predicate Convertible(t: Tutoria)
  {
    t.materia.Some? && t.estudiante.Some?
  }

  /** `d` copies the id, the dates, the description, the offer and the
      participant and subject ids of `t`. */
  predicate CopiedFrom(d: SolicitudTutoriaDto, t: Tutoria)
  {
    && d.id == t.id && d.fechaSolicitud == t.fechaSolicitud && d.fechaTutoria == t.fechaTutoria
    && d.descripcion == t.descripcion && d.valorOferta == t.valorOferta
    && t.estudiante == Some(d.estudianteId) && d.tutorId == t.tutor && t.materia == Some(d.materiaId)
  }

  /** The listing entries of `ts`, in the same order; reading the subject or
      the student of a session that has none fails. */
  function ConvertTutoriasToSolicitudTutoriaDto(ts: seq<Tutoria>): (r: Result<seq<SolicitudTutoriaDto>, Error>)
    ensures r.Success? <==> forall i :: 0 <= i < |ts| ==> Convertible(ts[i])
    ensures r.Failure? ==> r.error == NullDereference
    ensures r.Success? ==> |r.value| == |ts| && forall i :: 0 <= i < |ts| ==> CopiedFrom(r.value[i], ts[i])
  {
    if ts == [] then Success([])
    else
      var t := ts[0];
      if !Convertible(t) then Failure(NullDereference)
      else
        var rest := ConvertTutoriasToSolicitudTutoriaDto(ts[1..]);
        if rest.Failure? then rest
        else
          var d := SolicitudTutoriaDto(t.id, t.fechaSolicitud, t.fechaTutoria, t.descripcion,
                                       t.valorOferta, t.estudiante.value, t.tutor, t.materia.value);
          Success([d] + rest.value)
  }

  /** What a listing's entries say about the selected sessions: the
      conversion fails exactly when one of them lacks its subject or student,
      and otherwise gives one entry per session, in request-date order. */
  lemma ListingConverted(rows: seq<Tutoria>, sel: set<Tutoria>)
    requires SortedBySolicitud(rows) && multiset(rows) == multiset(sel)
    ensures ListedAs(ConvertTutoriasToSolicitudTutoriaDto(rows), sel)
  {
    assert |rows| == |multiset(rows)| == |sel|;
    forall t | t in sel ensures t in rows {
      assert t in multiset(rows);
    }
    var r := ConvertTutoriasToSolicitudTutoriaDto(rows);
    if r.Success? {
      forall i, j | 0 <= i < j < |r.value| ensures r.value[i].fechaSolicitud <= r.value[j].fechaSolicitud {
        assert CopiedFrom(r.value[i], rows[i]) && CopiedFrom(r.value[j], rows[j]);
      }
      forall i | 0 <= i < |r.value| ensures exists t :: t in sel && CopiedFrom(r.value[i], t) {
        assert rows[i] in multiset(sel);
        assert CopiedFrom(r.value[i], rows[i]);
      }
    } else {
      var i :| 0 <= i < |rows| && !Convertible(rows[i]);
      assert rows[i] in multiset(sel);
    }
  }

  /** `r` lists the sessions `sel`: it fails exactly when one of them lacks
      its subject or student, and otherwise holds one entry per session,
      each copied from a session of `sel`, in ascending request date. */
  ghost predicate ListedAs(r: Result<seq<SolicitudTutoriaDto>, Error>, sel: set<Tutoria>)
  {
    && (r.Success? <==> forall t :: t in sel ==> Convertible(t))
    && (r.Failure? ==> r.error == NullDereference)
    && (r.Success? ==>
          && |r.value| == |sel|
          && (forall i, j :: 0 <= i < j < |r.value| ==> r.value[i].fechaSolicitud <= r.value[j].fechaSolicitud)
          && (forall i :: 0 <= i < |r.value| ==> exists t :: t in sel && CopiedFrom(r.value[i], t)))
  }

  // ---------------------------------------------------------------------------
  // The service

  class TutoriaService {
    var tutorias: map<SessionId, Tutoria>
    var nextId: SessionId

    /** Rows are keyed by their id, every id was handed out before, and every
        offer fits its decimal(10, 2) column. */
    ghost predicate Valid()
      reads this
    {
      && KeyedById(tutorias)
      && (forall k :: k in tutorias ==> k < nextId && FitsDecimal10x2(tutorias[k].valorOferta))
    }

    constructor ()
      ensures Valid() && tutorias == map[]
    {
      tutorias := map[];
      nextId := 0;
    }

    /** The session with that id, or null. */
    function FindOne(id: SessionId): (r: Option<Tutoria>)
      reads this
      requires Valid()
      ensures r.Some? <==> id in tutorias
      ensures r.Some? ==> r.value.id == id && r.value == tutorias[id]
    {
      if id in tutorias then Some(tutorias[id]) else None
    }

    /** Stores a new PENDIENTE session requested at `now`. Only the tutor is
        required: an unknown subject or student is stored as null. */
    method Create(dto: CreateTutoriaDto, now: Timestamp, catalog: map<MateriaId, Materia>,
                  auth: UserRepository, tutorService: TutorService)
      returns (r: Result<Tutoria, Error>)
      requires Valid() && auth.Valid() && tutorService.Valid() && MateriasKeyed(catalog)
      modifies this
      ensures Valid()
      ensures dto.tutorId !in tutorService.tutors ==>
        r == Failure(NotFound) && tutorias == old(tutorias)
      ensures dto.tutorId in tutorService.tutors && !FitsDecimal10x2(dto.valorOferta) ==>
        r == Failure(PersistenceFailure) && tutorias == old(tutorias)
      ensures dto.tutorId in tutorService.tutors && FitsDecimal10x2(dto.valorOferta) ==>
        && r.Success?
        && r.value.id !in old(tutorias)
        && tutorias == old(tutorias)[r.value.id := r.value]
        && r.value.materia == (if dto.materiaId in catalog then Some(dto.materiaId) else None)
        && r.value.estudiante == (if dto.estudianteId in auth.users then Some(dto.estudianteId) else None)
        && r.value.tutor == dto.tutorId
        && r.value.fechaSolicitud == now
        && r.value.fechaTutoria == Some(dto.fechaTutoria)
        && r.value.descripcion == Some(dto.descripcion)
        && r.value.valorOferta == dto.valorOferta
        && r.value.estado == PENDIENTE
        && r.value.motivoRechazo.None? && r.value.motivoCancelacion.None?
    {
      var materia := FindMateria(catalog, dto.materiaId);
      var usuario := auth.FindUserById(dto.estudianteId);
      var tutor := tutorService.FindById(dto.tutorId);
      if tutor.Failure? {
        return Failure(tutor.error);
      }
      var t := NewTutoria(nextId, tutor.value.id, now).(
        materia := if materia.Some? then Some(materia.value.id) else None,
        estudiante := if usuario.Some? then Some(usuario.value.id) else None,
        fechaTutoria := Some(dto.fechaTutoria),
        descripcion := Some(dto.descripcion),
        valorOferta := dto.valorOferta);
      if !FitsDecimal10x2(t.valorOferta) {
        return Failure(PersistenceFailure);
      }
      tutorias := tutorias[t.id := t];
      nextId := nextId + 1;
      r := Success(t);
    }

    /** Sets the session to ACEPTADA, whatever its state. */
    method AcceptTutoria(id: SessionId) returns (r: Result<Tutoria, Error>)
      requires Valid()
      modifies this
      ensures Valid() && nextId == old(nextId)
      ensures id !in old(tutorias) ==> r == Failure(NullDereference) && tutorias == old(tutorias)
      ensures id in old(tutorias) ==>
        && r == Success(old(tutorias)[id].(estado := ACEPTADA))
        && tutorias == old(tutorias)[id := r.value]
    {
      var found := FindOne(id);
      if found.None? {
        return Failure(NullDereference);
      }
      var t := found.value.(estado := ACEPTADA);
      tutorias := tutorias[id := t];
      r := Success(t);
    }

    /** Sets the session to RECHAZADA, whatever its state, with `descripcion`
        as the reason when one was sent (a sent null clears it); when the
        field was left out the stored reason stays. */
    method RechazarTutoria(id: SessionId, descripcion: BodyField<string>) returns (r: Result<Tutoria, Error>)
      requires Valid()
      modifies this
      ensures Valid() && nextId == old(nextId)
      ensures id !in old(tutorias) ==> r == Failure(NullDereference) && tutorias == old(tutorias)
      ensures id in old(tutorias) && descripcion.Sent? ==>
        && r == Success(old(tutorias)[id].(estado := RECHAZADA, motivoRechazo := descripcion.value))
        && tutorias == old(tutorias)[id := r.value]
      ensures id in old(tutorias) && descripcion.Omitted? ==>
        && r == Success(old(tutorias)[id].(estado := RECHAZADA))
        && tutorias == old(tutorias)[id := r.value]
    {
      var found := FindOne(id);
      if found.None? {
        return Failure(NullDereference);
      }
      var motivo := if descripcion.Sent? then descripcion.value else found.value.motivoRechazo;
      var t := found.value.(estado := RECHAZADA, motivoRechazo := motivo);
      tutorias := tutorias[id := t];
      r := Success(t);
    }

    /** Completes an ACEPTADA session whose date is not after `now`; any other
        session is refused with BadRequest and nothing changes. */
    method FinalizarTutoria(id: SessionId, now: Timestamp) returns (r: Result<(), Error>)
      requires Valid()
      modifies this
      ensures Valid() && nextId == old(nextId)
      ensures id !in old(tutorias) ==> r == Failure(NullDereference) && tutorias == old(tutorias)
      ensures id in old(tutorias) ==> (r.Success? <==> Finalizable(old(tutorias)[id], now))
      ensures id in old(tutorias) && !Finalizable(old(tutorias)[id], now) ==>
        r == Failure(BadRequest) && tutorias == old(tutorias)
      ensures id in old(tutorias) && Finalizable(old(tutorias)[id], now) ==>
        tutorias == old(tutorias)[id := old(tutorias)[id].(estado := COMPLETADA)]
    {
      var found := FindOne(id);
      if found.None? {
        return Failure(NullDereference);
      }
      var t := found.value;
      if JsAfter(t.fechaTutoria, now) || t.estado != ACEPTADA {
        return Failure(BadRequest);
      }
      tutorias := tutorias[id := t.(estado := COMPLETADA)];
      r := Success(());
    }

    /** The daily sweep: every ACEPTADA session dated strictly before `now`
        becomes COMPLETADA. */
    method FinalizarTutoriasVencidas(now: Timestamp)
      requires Valid()
      modifies this
      ensures Valid() && nextId == old(nextId)
      ensures tutorias == Swept(old(tutorias), now)
    {
      var vencidas := set k | k in tutorias && Overdue(tutorias[k], now);
      ghost var selected := vencidas;
      ghost var before := tutorias;
      while vencidas != {}
        invariant vencidas <= selected
        invariant selected == OverdueIds(before, now)
        invariant tutorias == CompletedAmong(before, selected - vencidas)
        invariant Valid() && nextId == old(nextId)
        decreases vencidas
      {
        var k :| k in vencidas;
        tutorias := tutorias[k := tutorias[k].(estado := COMPLETADA)];
        vencidas := vencidas - {k};
      }
    }

    /** The sorted rows behind a listing: the sessions of `p` in `estado`, in
        ascending order of request date. */
    method Listing(p: Participant, estado: Estado) returns (rows: seq<Tutoria>)
      requires Valid()
      ensures SortedBySolicitud(rows)
      ensures multiset(rows) == multiset(Selected(tutorias, p, estado))
    {
      rows := [];
      var rest := tutorias.Keys;
      while rest != {}
        invariant rest <= tutorias.Keys
        invariant SortedBySolicitud(rows)
        invariant multiset(rows) == multiset(SelectedAmong(tutorias, tutorias.Keys - rest, p, estado))
        decreases rest
      {
        var k :| k in rest;
        SelectedAmongStep(tutorias, tutorias.Keys - rest, k, p, estado);
        assert tutorias.Keys - (rest - {k}) == (tutorias.Keys - rest) + {k};
        rest := rest - {k};
        if Matches(tutorias[k], p, estado) {
          rows := InsertBySolicitud(rows, tutorias[k]);
        }
      }
      assert tutorias.Keys - rest == tutorias.Keys;
    }

    /** Pending requests addressed to tutor `tutorId`. */
    method FindAllTutoringRequestsByTutor(tutorId: TutorId)
      returns (r: Result<seq<SolicitudTutoriaDto>, Error>, ghost rows: seq<Tutoria>)
      requires Valid()
      ensures SortedBySolicitud(rows) && multiset(rows) == multiset(Selected(tutorias, AsTutor(tutorId), PENDIENTE))
      ensures r == ConvertTutoriasToSolicitudTutoriaDto(rows)
      ensures ListedAs(r, Selected(tutorias, AsTutor(tutorId), PENDIENTE))
    {
      var found := Listing(AsTutor(tutorId), PENDIENTE);
      rows := found;
      r := ConvertTutoriasToSolicitudTutoriaDto(found);
      ListingConverted(found, Selected(tutorias, AsTutor(tutorId), PENDIENTE));
    }

    /** Pending requests made by student `studentId`. */
    method FindAllTutoringRequestsByStudent(studentId: UserId)
      returns (r: Result<seq<SolicitudTutoriaDto>, Error>, ghost rows: seq<Tutoria>)
      requires Valid()
      ensures SortedBySolicitud(rows) && multiset(rows) == multiset(Selected(tutorias, AsStudent(studentId), PENDIENTE))
      ensures r == ConvertTutoriasToSolicitudTutoriaDto(rows)
      ensures ListedAs(r, Selected(tutorias, AsStudent(studentId), PENDIENTE))
    {
      var found := Listing(AsStudent(studentId), PENDIENTE);
      rows := found;
      r := ConvertTutoriasToSolicitudTutoriaDto(found);
      ListingConverted(found, Selected(tutorias, AsStudent(studentId), PENDIENTE));
    }

    /** Completed sessions given by tutor `tutorId`. */
    method FindAllCompletedTutoringByTutor(tutorId: TutorId)
      returns (r: Result<seq<SolicitudTutoriaDto>, Error>, ghost rows: seq<Tutoria>)
      requires Valid()
      ensures SortedBySolicitud(rows) && multiset(rows) == multiset(Selected(tutorias, AsTutor(tutorId), COMPLETADA))
      ensures r == ConvertTutoriasToSolicitudTutoriaDto(rows)
      ensures ListedAs(r, Selected(tutorias, AsTutor(tutorId), COMPLETADA))
    {
      var found := Listing(AsTutor(tutorId), COMPLETADA);
      rows := found;
      r := ConvertTutoriasToSolicitudTutoriaDto(found);
      ListingConverted(found, Selected(tutorias, AsTutor(tutorId), COMPLETADA));
    }

    /** Accepted sessions of tutor `tutorId`. */
    method FindAllActiveTutoringByTutor(tutorId: TutorId)
      returns (r: Result<seq<SolicitudTutoriaDto>, Error>, ghost rows: seq<Tutoria>)
      requires Valid()
      ensures SortedBySolicitud(rows) && multiset(rows) == multiset(Selected(tutorias, AsTutor(tutorId), ACEPTADA))
      ensures r == ConvertTutoriasToSolicitudTutoriaDto(rows)
      ensures ListedAs(r, Selected(tutorias, AsTutor(tutorId), ACEPTADA))
    {
      var found := Listing(AsTutor(tutorId), ACEPTADA);
      rows := found;
      r := ConvertTutoriasToSolicitudTutoriaDto(found);
      ListingConverted(found, Selected(tutorias, AsTutor(tutorId), ACEPTADA));
    }

    /** Accepted sessions of student `studentId`. */
    method FindAllActiveTutoringByStudent(studentId: UserId)
      returns (r: Result<seq<SolicitudTutoriaDto>, Error>, ghost rows: seq<Tutoria>)
      requires Valid()
      ensures SortedBySolicitud(rows) && multiset(rows) == multiset(Selected(tutorias, AsStudent(studentId), ACEPTADA))
      ensures r == ConvertTutoriasToSolicitudTutoriaDto(rows)
      ensures ListedAs(r, Selected(tutorias, AsStudent(studentId), ACEPTADA))
    {
      var found := Listing(AsStudent(studentId), ACEPTADA);
      rows := found;
      r := ConvertTutoriasToSolicitudTutoriaDto(found);
      ListingConverted(found, Selected(tutorias, AsStudent(studentId), ACEPTADA));
    }

    /** Completed sessions taken by student `studentId`. */
    method FindAllCompletedTutoringByStudent(studentId: UserId)
      returns (r: Result<seq<SolicitudTutoriaDto>, Error>, ghost rows: seq<Tutoria>)
      requires Valid()
      ensures SortedBySolicitud(rows) && multiset(rows) == multiset(Selected(tutorias, AsStudent(studentId), COMPLETADA))
      ensures r == ConvertTutoriasToSolicitudTutoriaDto(rows)
      ensures ListedAs(r, Selected(tutorias, AsStudent(studentId), COMPLETADA))
    {
      var found := Listing(AsStudent(studentId), COMPLETADA);
      rows := found;
      r := ConvertTutoriasToSolicitudTutoriaDto(found);
      ListingConverted(found, Selected(tutorias, AsStudent(studentId), COMPLETADA));
    }
  }
}
