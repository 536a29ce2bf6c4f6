# Course registry (`main.py`) in Dafny

This project models the in-memory course registry of a small FastAPI
service. The service stores `Curso` records in a process-local list,
`cursos_db`. It has five handlers over that list:

- `obtener_cursos` lists every record;
- `crear_curso` stamps a generated id on the payload and appends it;
- `obtener_curso` returns the first record with a given id;
- `actualizar_curso` overwrites that record with the payload and keeps the original id;
- `eliminar_curso` removes that record and returns it.

Each handler is a pure function. It takes the registry as a `seq<Curso>`
plus the request's inputs. It returns the registry it leaves behind,
paired with either the returned record or the `NotFound` error, which
stands for the HTTP 404 "Curso no encontrado".

Files:

- `wrappers.dfy`: `Option` (Python's `Optional`) and `Result`.
- `pylist.dfy`: Python's `list.index` and `list.remove`. Both locate an element by value equality.
- `cursos.dfy`: the `Curso` record, the id scan, and the five handlers.
- `propiedades.dfy`: properties that span several handler calls. These are id uniqueness as a registry invariant, the create/get, update/get and delete/get round trips, and an example request sequence.

Update and delete have one subtle point. Both handlers find the record by
`id`, but then locate it a second time by whole-record equality
(`cursos_db.index(curso)`, `cursos_db.remove(curso)`).
`Cursos.ValueLookupFindsFirstMatch` shows that this second lookup always
lands on the first id match. An earlier equal record would carry the same
id, so it would itself have been the first match. The contracts of
`ActualizarCurso` and `EliminarCurso` are therefore stated in terms of the
first id-matching position. They are not stated in terms of the value
lookup.

Modelling choices:

- The source names the integer duration field `duración`, with an accent. Here it is `duracionHoras`.
- Records compare by value, as Dafny datatypes. Pydantic models compare by field values. `list.index` and `list.remove` also accept an identical object, but an identical object is also equal. The key lemma relies only on one fact: equal records carry the same id.
- No handler mutates a record once it is stored. `actualizar_curso` assigns to the payload, not to the stored object. Because of this, value semantics lose nothing.
- Field names follow main.py:13-19: `nombre`, `duracion`, `nivel`, `duración`. Delete removes the first value-equal record, and this model proves that this is the same record as the first id match.

## Model

| member | source | states |
|---|---|---|
| Cursos.FirstMatch | main.py:42 | The generator scan gives a position exactly when some record carries the id. The position it gives is the first matching one, and it is the only position with that property. |
| PyList.ListIndex | main.py:55 | `list.index` succeeds exactly when the value is in the list. It returns the first position that holds an equal element. |
| PyList.ListRemove | main.py:65 | `list.remove` succeeds exactly when the value is in the list. The result is the list with the first equal element cut out. |
| PyList.RemoveTakesOneCopy | main.py:65 | `list.remove` shortens the list by one. It takes out exactly one copy of the value, as a multiset. |
| Cursos.ValueLookupFindsFirstMatch | main.py:50-65 | The record at the first id match is also the first element equal to it. So the update's `index` and the delete's `remove` act on that same position. |
| Cursos.ObtenerCursos | main.py:28-30 | Listing returns the registry as stored and leaves it unchanged. |
| Cursos.CrearCurso | main.py:33-37 | Create adds one record at the end and keeps every earlier record. The new record carries the generated id, its other fields equal the payload's, and it is the record returned. |
| Cursos.ObtenerCurso | main.py:40-45 | Get never changes the registry. It succeeds exactly when some record carries the id, and then it returns the first such record. Otherwise it fails with NotFound. |
| Cursos.ActualizarCurso | main.py:48-57 | Update on a present id replaces only the first matching slot. The new record has the original id and the payload's other fields, whatever id the payload had. On an absent id it fails with NotFound and leaves the registry as it was. |
| Cursos.EliminarCurso | main.py:60-66 | Delete on a present id returns the first matching record. The registry loses exactly that position and the other records keep their order. On an absent id it fails with NotFound and leaves the registry as it was. |
| CursosPropiedades.UniqueIdsFirstMatch | main.py:42 | When ids are unique, every record is the first match of its own id. |
| CursosPropiedades.GetFindsEveryRecord | main.py:41-45 | When ids are unique, getting any stored record's own id returns exactly that record. |
| CursosPropiedades.UpdateKeepsIds | main.py:54-56 | Update keeps the registry's length and the id at every position. |
| CursosPropiedades.CreatePreservesUniqueIds | main.py:35-36 | Create keeps ids non-null and pairwise distinct when the generated id is fresh. |
| CursosPropiedades.UpdatePreservesUniqueIds | main.py:54-56 | Update keeps ids non-null and pairwise distinct. |
| CursosPropiedades.DeletePreservesUniqueIds | main.py:65 | Delete keeps ids non-null and pairwise distinct. |
| CursosPropiedades.DeleteRemovesOne | main.py:62-66 | Delete on a present id shortens the registry by one. As a multiset, the registry loses exactly the returned record. |
| CursosPropiedades.CreateThenGet | main.py:33-45 | After a create with a fresh id, getting that id returns the created record. |
| CursosPropiedades.UpdateThenGet | main.py:41-57 | For every registry, id and payload, a get after an update returns what the update returned: the updated record on a present id, NotFound on an absent one. |
| CursosPropiedades.DeleteThenGet | main.py:41-66 | When ids are unique, getting an id after deleting it fails with NotFound. |
| CursosPropiedades.CreatesKeepUniqueIds | main.py:33-37 | N creates with fresh, distinct generated ids add exactly N records after the existing ones. The i-th new record is the i-th payload carrying the i-th id, and ids stay non-null and unique. |
| CursosPropiedades.EscenarioCrud | main.py:33-66 | An example sequence create, get, update, delete, get on an empty registry gives the results the handlers promise. The get returns the created record, the update keeps the id, the delete returns the updated record and empties the registry, and the final get fails with NotFound. |

## Left out

- FastAPI application setup, route decorators and response serialization (main.py:10, 28, 33, 40, 48, 60): these are framework plumbing. The HTTP 404 status and its detail text become the single `NotFound` error.
- Pydantic request validation and its 422 response (main.py:13-19 as a `BaseModel`): this is done by a library outside the model. Payloads are taken to be well-typed `Curso` values.
- `uuid.uuid4()` (main.py:35): it draws on a random source. The generated id is a parameter of `CrearCurso`, and freshness is a precondition of the lemmas that need it.
- Concurrent requests over the shared global list: the code has no synchronisation, and concurrency is out of scope. Each handler is one atomic step from one registry to the next.
- Cursos.ObtenerCursos: the source returns the live list object itself, so the caller shares it with the registry. A value model cannot express that aliasing. The contract states only that the list's contents are returned unchanged.
- Python's `ValueError` from `list.index` and `list.remove` is modelled as `None`. The handlers never reach it, as `Cursos.ValueLookupFindsFirstMatch` shows.
