/**
 The course registry of `main.py`: the `Curso` record, the in-memory list
 `cursos_db`, and the five request handlers as pure functions from the
 current registry (and the request's inputs) to the registry they leave
 behind and the value they return or the error they raise.
 */
module Cursos {
  import opened Wrappers
  import opened PyList

  /**
   A course record. `duracion` is the optional free-text duration and
   `duracionHoras` the required integer one (spelt `duración` in the
   source, with an accent). `id` is `None` until the registry stamps one.
   */
  datatype Curso = Curso(
    id: Option<string>,
    nombre: string,
    duracion: Option<string>,
    nivel: string,
    duracionHoras: int)

  /** The only error a handler raises: HTTP 404 "Curso no encontrado". */
  datatype Error = NotFound

  /** `cursos_db`, in list order. */
  type Registry = seq<Curso>

  /** `c.id == curso_id`; a record without an id matches no identifier. */
  predicate HasId(c: Curso, cursoId: string) {
    c.id == Some(cursoId)
  }

  /** Some record of the registry carries `cursoId`. */
  predicate Present(db: Registry, cursoId: string) {
    exists j :: 0 <= j < |db| && HasId(db[j], cursoId)
  }

  /** `k` is the first position whose record carries `cursoId`. */
  predicate IsFirstMatch(db: Registry, cursoId: string, k: nat) {
    k < |db| && HasId(db[k], cursoId) && forall j :: 0 <= j < k ==> !HasId(db[j], cursoId)
  }

  /** The two records agree on every field except `id`. */
  predicate SameContent(a: Curso, b: Curso) {
    a.nombre == b.nombre && a.duracion == b.duracion && a.nivel == b.nivel && a.duracionHoras == b.duracionHoras
  }

  /**
   The scan `next((c for c in cursos_db if c.id == curso_id), None)`,
   reporting the position it stops at: the first matching one, or none.
   */
  function FirstMatch(db: Registry, cursoId: string): (r: Option<nat>)
    ensures r.None? <==> !Present(db, cursoId)
    ensures forall k: nat :: IsFirstMatch(db, cursoId, k) <==> r == Some(k)
  {
    if |db| == 0 then None
    else if HasId(db[0], cursoId) then Some(0)
    else match FirstMatch(db[1..], cursoId)
      case None => None
      case Some(k) =>
        assert IsFirstMatch(db[1..], cursoId, k);
        Some(k + 1)
  }

  /**
   The record at the first id match is also the first element EQUAL to it,
   so locating it again by value (`list.index`, `list.remove`) lands on the
   same position: an earlier equal record would carry the same id and
   would have been the first match.
   */
  lemma ValueLookupFindsFirstMatch(db: Registry, cursoId: string, k: nat)
    requires IsFirstMatch(db, cursoId, k)
    ensures FirstOccurrence(db, db[k], k)
    ensures ListIndex(db, db[k]) == Some(k)
    ensures ListRemove(db, db[k]) == Some(db[..k] + db[k + 1..])
  {
  }

  /** `obtener_cursos`: the whole registry, returned as stored. */
  function ObtenerCursos(db: Registry): (r: (Registry, seq<Curso>))
    ensures r.0 == db
    ensures r.1 == db
  {
    (db, db)
  }

  /**
   `crear_curso`: stamp `nuevoId` (the source's freshly generated
   `uuid4` string) onto the payload and append it.
   */
  function CrearCurso(db: Registry, curso: Curso, nuevoId: string): (r: (Registry, Curso))
    ensures r.1.id == Some(nuevoId) && SameContent(r.1, curso)
    ensures |r.0| == |db| + 1
    ensures r.0[..|db|] == db && r.0[|db|] == r.1
  {
    var creado := curso.(id := Some(nuevoId));
    (db + [creado], creado)
  }

  /** `obtener_curso`: the first record carrying `cursoId`, or NotFound. */
  function ObtenerCurso(db: Registry, cursoId: string): (r: (Registry, Result<Curso, Error>))
    ensures r.0 == db
    ensures r.1.Success? <==> Present(db, cursoId)
    ensures r.1.Failure? ==> r.1.error == NotFound
    ensures forall k: nat :: IsFirstMatch(db, cursoId, k) ==> r.1 == Success(db[k])
  {
    match FirstMatch(db, cursoId)
    case None => (db, Failure(NotFound))
    case Some(k) => (db, Success(db[k]))
  }

  /**
   `actualizar_curso`: find the first record carrying `cursoId`, give the
   payload that record's id, find the record's position again with
   `list.index` and overwrite that slot with the payload.
   */
  function ActualizarCurso(db: Registry, cursoId: string, payload: Curso): (r: (Registry, Result<Curso, Error>))
    ensures r.1.Success? <==> Present(db, cursoId)
    ensures r.1.Failure? ==> r == (db, Failure(NotFound))
    ensures r.1.Success? ==> r.1.value.id == Some(cursoId) && SameContent(r.1.value, payload)
    ensures forall k: nat :: IsFirstMatch(db, cursoId, k) ==> r.0 == db[k := r.1.value]
  {
    match FirstMatch(db, cursoId)
    case None => (db, Failure(NotFound))
    case Some(k) =>
      var curso := db[k];
      var actualizado := payload.(id := curso.id);
      ValueLookupFindsFirstMatch(db, cursoId, k);
      var index := ListIndex(db, curso).value;
      (db[index := actualizado], Success(actualizado))
  }

  /**
   `eliminar_curso`: find the first record carrying `cursoId`, drop it with
   `list.remove` and return it.
   */
  function EliminarCurso(db: Registry, cursoId: string): (r: (Registry, Result<Curso, Error>))
    ensures r.1.Success? <==> Present(db, cursoId)
    ensures r.1.Failure? ==> r == (db, Failure(NotFound))
    ensures forall k: nat :: IsFirstMatch(db, cursoId, k) ==>
      r.1 == Success(db[k]) && r.0 == db[..k] + db[k + 1..]
  {
    match FirstMatch(db, cursoId)
    case None => (db, Failure(NotFound))
    case Some(k) =>
      var curso := db[k];
      ValueLookupFindsFirstMatch(db, cursoId, k);
      (ListRemove(db, curso).value, Success(curso))
  }
}
