# Gym access control: the decision core of the Azure Function handlers

This project models the request handlers of a gym access-control system
as Dafny. Members enroll with a photograph. A face-recognition service then
identifies them when they enter or leave the facility. Rooms cap how many
people may be inside at once, and a guest may only enter with a host member.
Everything the handlers delegate becomes an input of the model:

- the face service's replies,
- the rows a SQL statement returns, or the exception it throws,
- the reply of the guest-entry stored procedure.

What is left is the handlers' own branching and the table updates they make.
Each of these is proved against what the code promises.

Modules, one per handler or shared file, plus `Js` for the values they share:

- `Js` (`js.dfy`): optional JSON fields and JavaScript truthiness,
  values that are returned or thrown, and the `{status, body}` response.
- `DataUrl` (`data_url.dfy`): removes the `data:image/<subtype>;base64,`
  header from the captured image.
- `FaceApi` (`faceapi.dfy`): turns SDK replies into the wrapper results
  (`detectFace`, `identifyFace`, `createPerson`, `addFaceToPerson`,
  `createPersonGroup`) and runs the `trainPersonGroup` poll loop.
- `RoomMovement` (`movimiento_sala.dfy`): the room occupancy controller.
  It is a class holding the `Salas` table and the `MovimientosSala` table.
- `AccessControl` (`control_acceso.dfy`): the facility admission decision, as
  a pure function. The class `AccessLog` appends the `Accesos` row.
- `Enrollment` (`registrar_socio.dfy`): the enrollment step pipeline. It is a
  class whose method records every face-service and store call in a trace, and
  appends to `Socios`.
- `GroupInit` (`inicializar_person_group.dfy`): turns the result of
  `createPersonGroup` into a response.

Requests are handled one after another. A value the database computes
(`GETDATE()`, an identity column) comes from a parameter or a field.

Facts about the code that shape the model:

- Room exit closes every open movement that matches on socio, room and guest
  flag, with no row limit (`azure-functions/MovimientoSala/index.js:71-84`).
- A room entry that carries no `socioId` or no `esInvitado` stores SQL NULL
  there. The exit's `=` never matches NULL, so no exit can close that
  movement, and it holds a place in the room for good
  (`RoomMovement.NullMovementNeverClosed`).
- Admission keeps no session. It only appends an `Accesos` row for a
  recognised active member (`azure-functions/ControlAcceso/index.js:53-62`).
- Guest entry is decided entirely by the reply of `sp_RegistrarEntradaConInvitado`
  (`azure-functions/ControlAcceso/index.js:87-106`).
- Enrollment answers 200 whatever training reports
  (`azure-functions/RegistrarSocio/index.js:59-68`).

## Model

| member | source | states |
|---|---|---|
| `DataUrl.StripHeader` | azure-functions/RegistrarSocio/index.js:17 | anything removed is a `data:image/<\w+>;base64,` header at the front; otherwise the string is unchanged |
| `DataUrl.StripRemovesHeader` | azure-functions/ControlAcceso/index.js:16 | every image header `data:image/` + one or more word characters + `;base64,` at the front is removed, leaving exactly the rest |
| `DataUrl.StripKeepsHeaderless` | azure-functions/RegistrarSocio/index.js:17 | a string that does not start with such a header is returned unchanged |
| `DataUrl.WordRun` | azure-functions/RegistrarSocio/index.js:17 | the greedy `\w+` covers exactly the leading word characters `[A-Za-z0-9_]` |
| `FaceApi.DetectFace` | azure-functions/shared/faceapi.js:37-67 | success if and only if the SDK returned exactly one face, with that face's id and rectangle; zero faces and several faces give their own messages; an SDK exception becomes a failure with its message, never a throw |
| `FaceApi.IdentifyRequest` | azure-functions/shared/faceapi.js:147-154 | identification asks about the single detected face, in the configured group, for at most 1 candidate at threshold 0.7 |
| `FaceApi.IdentifyFace` | azure-functions/shared/faceapi.js:145-177 | failure if and only if the SDK threw; `identified = false` if and only if the result list is empty or its first entry has no candidates; otherwise the first candidate of the first result, with its person id and confidence |
| `FaceApi.CreatePerson` | azure-functions/shared/faceapi.js:73-88 | success if and only if the SDK returned, carrying the new person id; otherwise a failure carrying the exception message |
| `FaceApi.AddFaceToPerson` | azure-functions/shared/faceapi.js:95-114 | success if and only if the SDK returned, carrying the persisted face id; otherwise a failure carrying the exception message |
| `FaceApi.CreatePersonGroup` | azure-functions/shared/faceapi.js:15-31 | a resolved result always has `success`; `exists` is set if and only if the SDK threw `PersonGroupExists`; every other error is rethrown unchanged |
| `FaceApi.RunningPrefix` | azure-functions/shared/faceapi.js:125-128 | the do-while stops at the first poll that does not report 'running' |
| `FaceApi.TrainPersonGroup` | azure-functions/shared/faceapi.js:119-139 | the poll loop returns the verdict of the first poll that is not 'running'; it issues that many polls and no more; a throwing train or poll call becomes a failure |
| `FaceApi.TrainingSucceedsIff` | azure-functions/shared/faceapi.js:124-134 | training succeeds if and only if the train call returned and the first poll that is not 'running' reports 'succeeded' |
| `RoomMovement.OpenCount` | azure-functions/MovimientoSala/index.js:19-21 | the LEFT JOIN count of open movements into a room is zero if and only if the room has no open movement, and never exceeds the number of movements |
| `RoomMovement.AforoQuery` | azure-functions/MovimientoSala/index.js:16-27 | an active room gives one row with its capacity and its open-movement count; an absent or inactive room gives no row |
| `RoomMovement.CloseMatching` | azure-functions/MovimientoSala/index.js:71-84 | the exit UPDATE closes every open movement whose socio, room and guest flag all match (no match on SQL NULL), with no row limit; every other row is unchanged |
| `RoomMovement.FirstClosed` | azure-functions/MovimientoSala/index.js:85-99 | there is no OUTPUT row if and only if no open movement matches; otherwise the first row is a matching movement as it reads after closing |
| `RoomMovement.NullMovementNeverClosed` | azure-functions/MovimientoSala/index.js:6-7 | a movement stored with a NULL `socioId` or `esInvitado` (the field check at line 7 covers only `salaId` and `accion`) is still open after any exit UPDATE (lines 71-84) |
| `RoomMovement.OpenCountAppend` | azure-functions/MovimientoSala/index.js:48-57 | inserting a movement raises its own room's open count by one when it is open, and leaves every other room's count unchanged |
| `RoomMovement.CloseMatchingOpenCount` | azure-functions/MovimientoSala/index.js:71-84 | closing movements never raises any room's open count |
| `RoomMovement.EntryPreservesCapacity` | azure-functions/MovimientoSala/index.js:35-57 | an entry let through by the `PersonasDentro >= CapacidadMaxima` check keeps every room's open count within its capacity |
| `RoomMovement.ExitPreservesCapacity` | azure-functions/MovimientoSala/index.js:71-84 | an exit keeps every room's open count within its capacity |
| `RoomMovement.RoomController.Handle` | azure-functions/MovimientoSala/index.js:6-111 | missing `salaId` or `accion` gives 400 and changes nothing. An unknown `accion` sets no response and changes nothing. ENTRADA on an absent or inactive room gives 404. A full room gives 400 "Sala llena" with both counts, inserting nothing. Otherwise exactly one open movement (socio, room, guest flag) is appended, with `plazasLibres = capacity - count - 1 >= 0`, and repeated entries are not checked. SALIDA closes every match and leaves no open match; with no match it gives 404 and changes nothing. A throwing statement gives 500 and changes nothing. The occupancy invariant is preserved. |
| `AccessControl.FindActiveMember` | azure-functions/ControlAcceso/index.js:38-52 | the member lookup returns an active member whose `FacePersonId` is the identified person; it returns none if and only if no such member exists |
| `AccessControl.Decide` | azure-functions/ControlAcceso/index.js:8-115 | missing `imagen` or `tipoAcceso` gives 400 before any call. An access row is written if and only if an active member is recognised and neither store statement throws. That row has the member's id, the request's `tipoAcceso` and `EsInvitado = 0`, and the response is 200 SOCIO with the confidence. |
| `AccessControl.CallsFollowDetection` | azure-functions/ControlAcceso/index.js:16-34 | the first call is detection of the stripped image; identification is asked about the detected face only, and it follows only a successful detection |
| `AccessControl.DetectionFailureStops` | azure-functions/ControlAcceso/index.js:18-25 | a detection failure gives 400 with the detector's error text, after detection alone, with no row written |
| `AccessControl.NotExactlyOneFaceStops` | azure-functions/ControlAcceso/index.js:18-25 | zero or several faces give 400 with the matching message after the detection call alone, with no row written |
| `AccessControl.IdentifyFailureStops` | azure-functions/ControlAcceso/index.js:27-34 | an identification-service failure gives 500 "Error en identificación" with no row written |
| `AccessControl.UnknownMemberRefused` | azure-functions/ControlAcceso/index.js:46-52 | when the face is identified but no active member has it, the response is 404 and no row is written |
| `AccessControl.MemberIgnoresGuestFlag` | azure-functions/ControlAcceso/index.js:36-73 | for an identified face the decision does not depend on `esInvitado` |
| `AccessControl.GuestWithoutHostRefused` | azure-functions/ControlAcceso/index.js:76-85 | an unrecognised guest on ENTRADA without `socioAnfitrionId` gets 400 and the procedure is never called |
| `AccessControl.GuestEntryOutcome` | azure-functions/ControlAcceso/index.js:87-106 | on the guest path the procedure is the last call, made for the host. Its reply `Resultado = 'ERROR'` gives 400 with `Mensaje`; any other reply gives 200 INVITADO with `InvitacionesRestantes`. No access row is written. |
| `AccessControl.UnrecognisedRefused` | azure-functions/ControlAcceso/index.js:108-115 | unrecognised and not a guest on ENTRADA (a guest on SALIDA, or not a guest) gives 403, writes nothing and calls nothing after identification |
| `AccessControl.GuestProcedureOnlyForHostedGuests` | azure-functions/ControlAcceso/index.js:76-101 | the procedure is called only for an unrecognised face declared a guest on ENTRADA with a truthy host id, and it is then called for that host |
| `AccessControl.AccessLog.Handle` | azure-functions/ControlAcceso/index.js:53-62 | the response is the decision's, and `Accesos` grows by exactly the decision's row, if it has one, and nothing else |
| `Enrollment.Registry.Register` | azure-functions/RegistrarSocio/index.js:4-79 | Missing `nombre`, `email` or `imagen` gives 400 with no call. Each failing step (detection 400, `createPerson` 500, `addFaceToPerson` 500, INSERT exception 500) ends the trace at that step and inserts no member row; a failed `addFaceToPerson` leaves the created person behind. Success inserts exactly one row whose `FacePersonId` is the created person id, and only then calls train. The answer is 200 whatever the training verdict. |
| `GroupInit.Initialize` | azure-functions/InicializarPersonGroup/index.js:5-35 | 200 if and only if the result has `success`. The message is "Person Group ya existía" when `exists` is set and "Person Group creado correctamente" otherwise, and the body carries the group id. A non-success result gives 500 "Error al crear Person Group". A thrown error gives 500 with its message. |
| `GroupInit.InitializeFromSdk` | azure-functions/InicializarPersonGroup/index.js:7-25 | composed with `createPersonGroup`, the "Error al crear Person Group" branch is never reached: 200 if and only if the group was created or already existed, and any 500 carries the message of the error that was rethrown |

## Left out

- The face SDK, base64 decoding and the one-second delay between training polls are foreign calls or timers. Their results are inputs.
- The SQL connection pool and query execution (`shared/database.js`) are I/O and are not part of this model. Each SQL statement is modelled as the table update or lookup it performs.
- The handlers bind SQL type constants where values are meant, for example `salaId: sql.Int`. The model keys every statement by the request field it is evidently meant to use.
- The guest-entry procedure `sp_RegistrarEntradaConInvitado` and the computed column `TiempoMinutos`: their definitions are not part of this model. The procedure's reply is an opaque input, so there is no invitation balance and no write by the procedure.
- `RoomMovement.RoomController.Handle`: the 200 exit body carries the first row the UPDATE outputs instead of its `TiempoMinutos`. The dwell time is the database's computed column and is not modelled.
- SQL result order: a query without ORDER BY is read in table order. This affects the member lookup when several active members share a person id, and the first row the exit UPDATE outputs.
- Request field types: fields have fixed types in the model (strings, integer ids, boolean flags). Other JSON types are not covered, and in the source they give answers the model does not show:
  - A request without a JSON body fails the destructuring, and the catch answers 500.
  - A truthy `imagen` that is not a string passes the field check and then throws at `imagen.replace`, which answers 500 (`azure-functions/ControlAcceso/index.js:16`, `azure-functions/RegistrarSocio/index.js:17`).
  - A string `salaId` such as "7" throws nothing.
  - An `accion` that is not a string throws nothing either; it matches neither action and the handler sets no response (`azure-functions/MovimientoSala/index.js:15,70`).
- `AccessControl.Decide`: the details text of the 500 given when the procedure returns no row is the JavaScript runtime's TypeError text. It is only indicative, and a missing record set fails at `result[0]` with other text.
- `FaceApi.TrainPersonGroup`: the polls are a finite sequence. When every supplied poll reports 'running', the result is `None` and the enrollment answer is `None`; the source would keep polling.
- Several handlers run concurrently, and the capacity check and the insert are separate round trips. Concurrency is out of scope, so the occupancy invariant is proved for requests handled one at a time.
- `ObtenerEstadisticas` only passes a stored-procedure result through. The web app and the dashboard are presentation code.
- Confidence is a float the service reports. It is passed through and never compared.
