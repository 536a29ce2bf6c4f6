/**
 Properties that relate several handler calls: identifier uniqueness as an
 invariant of the registry, the create/get, update/get and delete/get round
 trips, and an example request sequence.
 */
module CursosPropiedades {
  import opened Wrappers
  import opened PyList
  import opened Cursos

  /** Every stored record has an id, and no two records share one. */
  predicate UniqueIds(db: Registry) {
    && (forall j :: 0 <= j < |db| ==> db[j].id.Some?)
    && (forall i, j :: 0 <= i < j < |db| ==> db[i].id != db[j].id)
  }

  /** Under unique ids, every record is the first (and only) match of its own id. */
  lemma UniqueIdsFirstMatch(db: Registry, k: nat)
    requires UniqueIds(db) && k < |db|
    ensures IsFirstMatch(db, db[k].id.value, k)
  {
  }

  /** Under unique ids, getting any stored record's own id returns that record. */
  lemma GetFindsEveryRecord(db: Registry, k: nat)
    requires UniqueIds(db) && k < |db|
    ensures ObtenerCurso(db, db[k].id.value).1 == Success(db[k])
  {
    UniqueIdsFirstMatch(db, k);
  }

  /** Update leaves the id column of the registry exactly as it was. */
  lemma UpdateKeepsIds(db: Registry, cursoId: string, payload: Curso)
    ensures |ActualizarCurso(db, cursoId, payload).0| == |db|
    ensures forall j :: 0 <= j < |db| ==> ActualizarCurso(db, cursoId, payload).0[j].id == db[j].id
  {
    var r := ActualizarCurso(db, cursoId, payload);
    if Present(db, cursoId) {
      var k := FirstMatch(db, cursoId).value;
      assert r.0 == db[k := r.1.value];
    }
  }

  /** Create with an id no record carries keeps the ids unique. */
  lemma CreatePreservesUniqueIds(db: Registry, curso: Curso, nuevoId: string)
    requires UniqueIds(db) && !Present(db, nuevoId)
    ensures UniqueIds(CrearCurso(db, curso, nuevoId).0)
  {
    var db' := CrearCurso(db, curso, nuevoId).0;
    forall i, j | 0 <= i < j < |db'|
      ensures db'[i].id != db'[j].id
    {
      if j == |db| {
        assert db'[i] == db[i] && !HasId(db[i], nuevoId);
      } else {
        assert db'[i] == db[i] && db'[j] == db[j];
      }
    }
  }

  /** Update keeps the ids unique. */
  lemma UpdatePreservesUniqueIds(db: Registry, cursoId: string, payload: Curso)
    requires UniqueIds(db)
    ensures UniqueIds(ActualizarCurso(db, cursoId, payload).0)
  {
    UpdateKeepsIds(db, cursoId, payload);
  }

  /** Cutting one record out of a registry keeps its ids unique. */
  lemma CutKeepsUniqueIds(db: Registry, k: nat)
    requires UniqueIds(db) && k < |db|
    ensures UniqueIds(db[..k] + db[k + 1..])
  {
    var db' := db[..k] + db[k + 1..];
    assert forall j :: 0 <= j < |db'| ==> db'[j] == db[if j < k then j else j + 1];
  }

  /** Delete keeps the ids unique. */
  lemma DeletePreservesUniqueIds(db: Registry, cursoId: string)
    requires UniqueIds(db)
    ensures UniqueIds(EliminarCurso(db, cursoId).0)
  {
    if Present(db, cursoId) {
      CutKeepsUniqueIds(db, FirstMatch(db, cursoId).value);
    }
  }

  /** Delete removes exactly one record: the one it returns. */
  lemma DeleteRemovesOne(db: Registry, cursoId: string)
    requires Present(db, cursoId)
    ensures var r := EliminarCurso(db, cursoId);
      && r.1.Success?
      && |r.0| == |db| - 1
      && multiset(r.0) + multiset{r.1.value} == multiset(db)
  {
    var k := FirstMatch(db, cursoId).value;
    ValueLookupFindsFirstMatch(db, cursoId, k);
    RemoveTakesOneCopy(db, db[k]);
  }

  /** Getting a freshly created record by its new id returns exactly that record. */
  lemma CreateThenGet(db: Registry, curso: Curso, nuevoId: string)
    requires !Present(db, nuevoId)
    ensures var (db', creado) := CrearCurso(db, curso, nuevoId);
      ObtenerCurso(db', nuevoId) == (db', Success(creado))
  {
    var db' := CrearCurso(db, curso, nuevoId).0;
    assert IsFirstMatch(db', nuevoId, |db|);
  }

  /** Getting an updated record by its id returns the record the update returned. */
  lemma UpdateThenGet(db: Registry, cursoId: string, payload: Curso)
    ensures var (db', actualizado) := ActualizarCurso(db, cursoId, payload);
      ObtenerCurso(db', cursoId).1 == actualizado
  {
    if Present(db, cursoId) {
      var k := FirstMatch(db, cursoId).value;
      var db' := ActualizarCurso(db, cursoId, payload).0;
      UpdateKeepsIds(db, cursoId, payload);
      assert IsFirstMatch(db', cursoId, k);
    }
  }

  /** With unique ids, once a record is deleted its id is no longer found. */
  lemma DeleteThenGet(db: Registry, cursoId: string)
    requires UniqueIds(db)
    ensures var db' := EliminarCurso(db, cursoId).0;
      ObtenerCurso(db', cursoId).1 == Failure(NotFound)
  {
    if Present(db, cursoId) {
      var k := FirstMatch(db, cursoId).value;
      var db' := EliminarCurso(db, cursoId).0;
      assert db' == db[..k] + db[k + 1..];
      forall j | 0 <= j < |db'|
        ensures !HasId(db'[j], cursoId)
      {
        if j < k {
          assert db'[j] == db[j];
        } else {
          assert db'[j] == db[j + 1];
        }
      }
    }
  }

  /** The registry after creating `cursos` in order, the i-th with the generated id `ids[i]`. */
  function CrearVarios(db: Registry, cursos: seq<Curso>, ids: seq<string>): Registry
    requires |cursos| == |ids|
    decreases |cursos|
  {
    if |cursos| == 0 then db
    else CrearVarios(CrearCurso(db, cursos[0], ids[0]).0, cursos[1..], ids[1..])
  }

  /** The generated ids are pairwise distinct and none is already in the registry. */
  predicate FreshIds(db: Registry, ids: seq<string>) {
    && (forall i :: 0 <= i < |ids| ==> !Present(db, ids[i]))
    && (forall i, j :: 0 <= i < j < |ids| ==> ids[i] != ids[j])
  }

  /**
   N creates with fresh generated ids add exactly N records after the
   existing ones, the i-th being the i-th payload with the i-th id, and the
   registry keeps every id present and unique.
   */
  lemma {:induction false} CreatesKeepUniqueIds(db: Registry, cursos: seq<Curso>, ids: seq<string>)
    requires |cursos| == |ids|
    requires UniqueIds(db) && FreshIds(db, ids)
    ensures var db' := CrearVarios(db, cursos, ids);
      && |db'| == |db| + |cursos|
      && db'[..|db|] == db
      && (forall i :: 0 <= i < |cursos| ==> db'[|db| + i] == cursos[i].(id := Some(ids[i])))
      && UniqueIds(db')
    decreases |cursos|
  {
    if |cursos| > 0 {
      var db1 := CrearCurso(db, cursos[0], ids[0]).0;
      CreatePreservesUniqueIds(db, cursos[0], ids[0]);
      forall i | 0 <= i < |ids[1..]|
        ensures !Present(db1, ids[1..][i])
      {
        assert ids[1..][i] == ids[i + 1] != ids[0];
        assert !Present(db, ids[i + 1]);
        forall j | 0 <= j < |db1|
          ensures !HasId(db1[j], ids[i + 1])
        {
          if j < |db| {
            assert db1[j] == db[j];
          }
        }
      }
      CreatesKeepUniqueIds(db1, cursos[1..], ids[1..]);
      var db' := CrearVarios(db1, cursos[1..], ids[1..]);
      assert db'[..|db|] == db'[..|db1|][..|db|];
      forall i | 0 <= i < |cursos|
        ensures db'[|db| + i] == cursos[i].(id := Some(ids[i]))
      {
        if i == 0 {
          assert db'[|db|] == db'[..|db1|][|db|] == db1[|db|];
        } else {
          assert db'[|db1| + (i - 1)] == cursos[1..][i - 1].(id := Some(ids[1..][i - 1]));
        }
      }
    }
  }

  /**
   An example request sequence: create a course, get it, update it,
   delete it, get it again. `uid` stands for the generated identifier.
   */
  lemma EscenarioCrud(uid: string)
    ensures
      var alta := Curso(None, "Python basico", Some("10 horas"), "principiante", 10);
      var cambio := Curso(None, "Python avanzado", None, "avanzado", 30);
      var (db1, creado) := CrearCurso([], alta, uid);
      var (db2, leido) := ObtenerCurso(db1, uid);
      var (db3, actualizado) := ActualizarCurso(db2, uid, cambio);
      var (db4, borrado) := EliminarCurso(db3, uid);
      var (db5, otraVez) := ObtenerCurso(db4, uid);
      && creado.id == Some(uid)
      && leido == Success(creado)
      && actualizado == Success(cambio.(id := Some(uid)))
      && borrado == actualizado
      && db4 == []
      && otraVez == Failure(NotFound)
  {
    var alta := Curso(None, "Python basico", Some("10 horas"), "principiante", 10);
    var cambio := Curso(None, "Python avanzado", None, "avanzado", 30);
    var db1 := CrearCurso([], alta, uid).0;
    assert IsFirstMatch(db1, uid, 0);
    var db3 := ActualizarCurso(db1, uid, cambio).0;
    assert IsFirstMatch(db3, uid, 0);
  }
}
