/** Client code: what a caller can conclude from the contracts alone. */
module Scenarios {
  import opened Wrappers
  import opened Entities
  import opened Directory
  import opened Tutors
  import opened Tutorias

  /** Acceptance checks no prior state: a second acceptance succeeds, and a
      completed session accepted again is ACEPTADA once more. */
  method ReacceptCompleted(now: Timestamp)
  {
    var auth := new UserRepository(map[7 := User(7, "Ana", [ESTUDIANTE])]);
    var tutors := new TutorService();
    var profile := tutors.Create(CreateTutorDto(7, [], None, None), auth, map[]);
    var sessions := new TutoriaService();
    var created := sessions.Create(CreateTutoriaDto(1, 7, profile.value.id, now, "Algebra", 2500),
                                   now, map[], auth, tutors);
    var id := created.value.id;
    assert created.value.estado == PENDIENTE && created.value.materia.None?;

    var first := sessions.AcceptTutoria(id);
    var second := sessions.AcceptTutoria(id);
    assert second.Success? && second.value.estado == ACEPTADA;

    var done := sessions.FinalizarTutoria(id, now);
    assert done.Success? && sessions.tutorias[id].estado == COMPLETADA;

    var again := sessions.AcceptTutoria(id);
    assert sessions.tutorias[id].estado == ACEPTADA;
  }

  /** The sweep completes the overdue accepted session, keeps the one dated
      exactly `now` and the future one, and a second run changes nothing. */
  method SweepTwice(now: Timestamp)
  {
    var auth := new UserRepository(map[7 := User(7, "Ana", [ESTUDIANTE])]);
    var tutors := new TutorService();
    var profile := tutors.Create(CreateTutorDto(7, [], None, None), auth, map[]);
    var sessions := new TutoriaService();
    var past := sessions.Create(CreateTutoriaDto(1, 7, profile.value.id, now - 1, "", 0), now - 10, map[], auth, tutors);
    var exact := sessions.Create(CreateTutoriaDto(1, 7, profile.value.id, now, "", 0), now - 10, map[], auth, tutors);
    var future := sessions.Create(CreateTutoriaDto(1, 7, profile.value.id, now + 1, "", 0), now - 10, map[], auth, tutors);
    var a := sessions.AcceptTutoria(past.value.id);
    var b := sessions.AcceptTutoria(exact.value.id);
    var c := sessions.AcceptTutoria(future.value.id);

    ghost var before := sessions.tutorias;
    assert Overdue(before[past.value.id], now);
    assert !Overdue(before[exact.value.id], now) && !Overdue(before[future.value.id], now);
    sessions.FinalizarTutoriasVencidas(now);
    SweepCompletesExactlyOverdue(before, now);
    var once := sessions.tutorias;
    assert once[past.value.id].estado == COMPLETADA;
    assert once[exact.value.id].estado == ACEPTADA;
    assert once[future.value.id].estado == ACEPTADA;

    sessions.FinalizarTutoriasVencidas(now);
    SweepIdempotent(before, now);
    assert sessions.tutorias == once;
  }
}
