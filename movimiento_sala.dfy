/** The room occupancy controller: the handler that records a member's or a
    guest's entry into and exit from a room, in the `MovimientosSala` table,
    against the room's maximum occupancy in the `Salas` table. Requests are
    handled one after another; `now` stands for the database's `GETDATE()`. */
module RoomMovement {
  import opened Js

  const Entrada := "ENTRADA"
  const Salida := "SALIDA"
  const MissingDataError := "Faltan datos: salaId y accion son obligatorios"
  const RoomNotFoundError := "Sala no encontrada"
  const RoomFullError := "Sala llena"
  const NoEntryError := "No hay registro de entrada en esta sala"
  const EntryMessage := "Entrada registrada en sala"
  const ExitMessage := "Salida registrada de sala"
  const InternalErrorMessage := "Error interno del servidor"

  /** A row of `Salas`: its maximum occupancy and whether it is in use. */
  datatype Sala = Sala(capacidadMaxima: int, activa: bool)

  /** A row of `MovimientosSala`. `socioId` and `esInvitado` are whatever the
      request carried, SQL NULL when it carried nothing; `salida` is `None`
      while the movement is open. */
  datatype Movimiento = Movimiento(
    movimientoId: int,
    socioId: Option<int>,
    salaId: int,
    esInvitado: Option<bool>,
    entrada: int,
    salida: Option<int>)

  /** The JSON body of a request: `accion` is 'ENTRADA' or 'SALIDA'. */
  datatype Request = Request(socioId: Option<int>, salaId: Option<int>, accion: Option<string>, esInvitado: Option<bool>)

  datatype Body =
    | Failure(error: string)
    | RoomFull(error: string, capacidadMaxima: int, personasDentro: nat)
    | EntryRecorded(mensaje: string, movimientoId: int, plazasLibres: int)
    | ExitRecorded(mensaje: string, closed: Movimiento)
    | InternalError(error: string, details: string)

  /** Which of the handler's three SQL statements throw, if run: the capacity
      SELECT, the entry INSERT and the exit UPDATE. */
  datatype StoreFaults = StoreFaults(aforo: Option<Error>, insert: Option<Error>, update: Option<Error>)

  predicate IsOpen(m: Movimiento) {
    m.salida.None?
  }

  /** How many movements into room `salaId` are still open. */
  function OpenCount(movs: seq<Movimiento>, salaId: int): (n: nat)
    ensures n <= |movs|
    ensures n == 0 <==> forall i :: 0 <= i < |movs| ==> !(IsOpen(movs[i]) && movs[i].salaId == salaId)
  {
    if movs == [] then 0
    else (if IsOpen(movs[0]) && movs[0].salaId == salaId then 1 else 0) + OpenCount(movs[1..], salaId)
  }

  /** The one row the capacity query returns for an active room. */
  datatype Aforo = Aforo(capacidadMaxima: int, personasDentro: nat)

  /** The capacity query: the room's maximum occupancy joined with the count of
      its open movements, for an active room only. */
  function AforoQuery(salas: map<int, Sala>, movs: seq<Movimiento>, salaId: int): (r: Option<Aforo>)
    ensures r.Some? <==> salaId in salas && salas[salaId].activa
    ensures r.Some? ==> r.value.capacidadMaxima == salas[salaId].capacidadMaxima
    ensures r.Some? ==> r.value.personasDentro == OpenCount(movs, salaId)
    ensures r.Some? && r.value.personasDentro == 0 ==>
      forall i :: 0 <= i < |movs| ==> !(IsOpen(movs[i]) && movs[i].salaId == salaId)
  {
    if salaId in salas && salas[salaId].activa
    then Some(Aforo(salas[salaId].capacidadMaxima, OpenCount(movs, salaId)))
    else None
  }

  /** The occupancy invariant: no room holds more open movements than its capacity. */
  ghost predicate WithinCapacity(salas: map<int, Sala>, movs: seq<Movimiento>) {
    forall salaId :: salaId in salas ==> OpenCount(movs, salaId) <= salas[salaId].capacidadMaxima
  }

  /** SQL `column = @param`: never true when either side is NULL. */
  predicate SqlEquals<T(==)>(column: Option<T>, param: Option<T>) {
    column.Some? && param.Some? && column.value == param.value
  }

  /** The WHERE clause of the exit UPDATE. */
  predicate ClosedBy(m: Movimiento, socioId: Option<int>, salaId: int, esInvitado: Option<bool>) {
    SqlEquals(m.socioId, socioId) && m.salaId == salaId && IsOpen(m) && SqlEquals(m.esInvitado, esInvitado)
  }

  /** The exit UPDATE, which has no row limit: every row its WHERE clause
      selects gets `salida := now`, and no other row changes. */
  function CloseMatching(movs: seq<Movimiento>, socioId: Option<int>, salaId: int, esInvitado: Option<bool>, now: int): (r: seq<Movimiento>)
    ensures |r| == |movs|
    ensures forall i :: 0 <= i < |movs| ==>
      r[i] == if ClosedBy(movs[i], socioId, salaId, esInvitado) then movs[i].(salida := Some(now)) else movs[i]
  {
    if movs == [] then []
    else
      var m := movs[0];
      [if ClosedBy(m, socioId, salaId, esInvitado) then m.(salida := Some(now)) else m]
        + CloseMatching(movs[1..], socioId, salaId, esInvitado, now)
  }

  /** The first row of the UPDATE's OUTPUT, as it reads after the update; `None`
      when the UPDATE touches no row. */
  function FirstClosed(movs: seq<Movimiento>, socioId: Option<int>, salaId: int, esInvitado: Option<bool>, now: int): (r: Option<Movimiento>)
    ensures r.None? <==> forall i :: 0 <= i < |movs| ==> !ClosedBy(movs[i], socioId, salaId, esInvitado)
    ensures r.Some? ==> exists i :: 0 <= i < |movs| && ClosedBy(movs[i], socioId, salaId, esInvitado)
                                    && r.value == movs[i].(salida := Some(now))
  {
    if movs == [] then None
    else if ClosedBy(movs[0], socioId, salaId, esInvitado) then Some(movs[0].(salida := Some(now)))
    else
      var r := FirstClosed(movs[1..], socioId, salaId, esInvitado, now);
      assert r.Some? ==> exists i :: 0 <= i < |movs| && ClosedBy(movs[i], socioId, salaId, esInvitado)
                                    && r.value == movs[i].(salida := Some(now)) by {
        if r.Some? {
          var i :| 0 <= i < |movs[1..]| && ClosedBy(movs[1..][i], socioId, salaId, esInvitado)
                   && r.value == movs[1..][i].(salida := Some(now));
          assert movs[i + 1] == movs[1..][i];
        }
      }
      r
  }

  /** Appending a movement adds one to its room's open count when it is open, and nothing elsewhere. */
  lemma {:induction false} OpenCountAppend(movs: seq<Movimiento>, m: Movimiento, salaId: int)
    ensures OpenCount(movs + [m], salaId) == OpenCount(movs, salaId) + (if IsOpen(m) && m.salaId == salaId then 1 else 0)
  {
    if movs != [] {
      assert (movs + [m])[1..] == movs[1..] + [m];
      OpenCountAppend(movs[1..], m, salaId);
    }
  }

  /** A movement entered without a `socioId` or without an `esInvitado` holds
      SQL NULL there, which the exit UPDATE's `=` never matches: no exit ever
      closes it, so it keeps its place in the room. */
  lemma NullMovementNeverClosed(movs: seq<Movimiento>, i: int, socioId: Option<int>, salaId: int, esInvitado: Option<bool>, now: int)
    requires 0 <= i < |movs| && IsOpen(movs[i])
    requires movs[i].socioId.None? || movs[i].esInvitado.None?
    ensures IsOpen(CloseMatching(movs, socioId, salaId, esInvitado, now)[i])
  {
  }

  /** Closing movements never raises any room's open count. */
  lemma {:induction false} CloseMatchingOpenCount(
    movs: seq<Movimiento>, socioId: Option<int>, salaId: int, esInvitado: Option<bool>, now: int, room: int)
    ensures OpenCount(CloseMatching(movs, socioId, salaId, esInvitado, now), room) <= OpenCount(movs, room)
  {
    if movs != [] {
      var r := CloseMatching(movs, socioId, salaId, esInvitado, now);
      assert r[1..] == CloseMatching(movs[1..], socioId, salaId, esInvitado, now);
      CloseMatchingOpenCount(movs[1..], socioId, salaId, esInvitado, now, room);
    }
  }

  /** An entry admitted by the capacity check keeps every room within its capacity. */
  lemma EntryPreservesCapacity(salas: map<int, Sala>, movs: seq<Movimiento>, m: Movimiento)
    requires WithinCapacity(salas, movs)
    requires AforoQuery(salas, movs, m.salaId).Some?
    requires AforoQuery(salas, movs, m.salaId).value.personasDentro < AforoQuery(salas, movs, m.salaId).value.capacidadMaxima
    ensures WithinCapacity(salas, movs + [m])
  {
    forall salaId | salaId in salas
      ensures OpenCount(movs + [m], salaId) <= salas[salaId].capacidadMaxima
    {
      OpenCountAppend(movs, m, salaId);
    }
  }

  /** An exit keeps every room within its capacity. */
  lemma ExitPreservesCapacity(
    salas: map<int, Sala>, movs: seq<Movimiento>, socioId: Option<int>, salaId: int, esInvitado: Option<bool>, now: int)
    requires WithinCapacity(salas, movs)
    ensures WithinCapacity(salas, CloseMatching(movs, socioId, salaId, esInvitado, now))
  {
    forall room | room in salas
      ensures OpenCount(CloseMatching(movs, socioId, salaId, esInvitado, now), room) <= salas[room].capacidadMaxima
    {
      CloseMatchingOpenCount(movs, socioId, salaId, esInvitado, now, room);
    }
  }

  /** A request that passes the field check and names ENTRADA. */
  predicate IsEntry(req: Request) {
    TruthyId(req.salaId) && Truthy(req.accion) && req.accion.value == Entrada
  }

  /** A request that passes the field check and names SALIDA. */
  predicate IsExit(req: Request) {
    TruthyId(req.salaId) && Truthy(req.accion) && req.accion.value == Salida
  }

  class RoomController {
    /** The `Salas` table, which no request changes. */
    const salas: map<int, Sala>
    /** The `MovimientosSala` table, in insertion order. */
    var movimientos: seq<Movimiento>
    /** The identity value the next inserted movement receives. */
    var nextId: int

    /** The occupancy invariant that every request preserves. */
    ghost predicate Valid()
      reads this
    {
      WithinCapacity(salas, movimientos)
    }

    constructor (salas: map<int, Sala>, movimientos: seq<Movimiento>, nextId: int)
      ensures this.salas == salas && this.movimientos == movimientos && this.nextId == nextId
    {
      this.salas := salas;
      this.movimientos := movimientos;
      this.nextId := nextId;
    }

    /** Handle one room movement request. `None` is a request whose `accion`
        is neither ENTRADA nor SALIDA, for which no response is set. */
    method Handle(req: Request, now: int, faults: StoreFaults) returns (res: Option<Response<Body>>)
      modifies this
      ensures old(Valid()) ==> Valid()
      ensures nextId == old(nextId) + (if |movimientos| > |old(movimientos)| then 1 else 0)
      ensures !IsEntry(req) && !IsExit(req) ==> movimientos == old(movimientos)
      ensures !(TruthyId(req.salaId) && Truthy(req.accion)) ==> res == Some(Response(400, Failure(MissingDataError)))
      ensures TruthyId(req.salaId) && Truthy(req.accion) && !IsEntry(req) && !IsExit(req) ==> res.None?
      // a statement that throws: 500 and no change
      ensures res.Some? && res.value.body.InternalError? ==> movimientos == old(movimientos)
      ensures IsEntry(req) && faults.aforo.Some? ==>
        res == Some(Response(500, InternalError(InternalErrorMessage, faults.aforo.value.message)))
      // ENTRADA: a missing or inactive room, a full room, or exactly one new open movement
      ensures IsEntry(req) && faults.aforo.None? ==>
        match AforoQuery(salas, old(movimientos), req.salaId.value)
        case None =>
          res == Some(Response(404, Failure(RoomNotFoundError))) && movimientos == old(movimientos)
        case Some(aforo) =>
          && (aforo.personasDentro >= aforo.capacidadMaxima ==>
                && res == Some(Response(400, RoomFull(RoomFullError, aforo.capacidadMaxima, aforo.personasDentro)))
                && movimientos == old(movimientos))
          && (aforo.personasDentro < aforo.capacidadMaxima && faults.insert.Some? ==>
                && res == Some(Response(500, InternalError(InternalErrorMessage, faults.insert.value.message)))
                && movimientos == old(movimientos))
          && (aforo.personasDentro < aforo.capacidadMaxima && faults.insert.None? ==>
                && movimientos == old(movimientos) + [Movimiento(old(nextId), req.socioId, req.salaId.value, req.esInvitado, now, None)]
                && res == Some(Response(200, EntryRecorded(EntryMessage, old(nextId),
                                                           aforo.capacidadMaxima - aforo.personasDentro - 1))))
      ensures res.Some? && res.value.body.EntryRecorded? ==> res.value.body.plazasLibres >= 0
      // SALIDA: every matching open movement is closed, or 404 when there is none
      ensures IsExit(req) && faults.update.Some? ==>
        res == Some(Response(500, InternalError(InternalErrorMessage, faults.update.value.message)))
        && movimientos == old(movimientos)
      ensures IsExit(req) && faults.update.None? ==>
        && movimientos == CloseMatching(old(movimientos), req.socioId, req.salaId.value, req.esInvitado, now)
        && (forall i :: 0 <= i < |movimientos| ==> !ClosedBy(movimientos[i], req.socioId, req.salaId.value, req.esInvitado))
        && match FirstClosed(old(movimientos), req.socioId, req.salaId.value, req.esInvitado, now)
           case None => res == Some(Response(404, Failure(NoEntryError))) && movimientos == old(movimientos)
           case Some(closed) => res == Some(Response(200, ExitRecorded(ExitMessage, closed)))
    {
      if !TruthyId(req.salaId) || !Truthy(req.accion) {
        return Some(Response(400, Failure(MissingDataError)));
      }
      var salaId, accion := req.salaId.value, req.accion.value;
      if accion == Entrada {
        if faults.aforo.Some? {
          return Some(Response(500, InternalError(InternalErrorMessage, faults.aforo.value.message)));
        }
        var aforo := AforoQuery(salas, movimientos, salaId);
        if aforo.None? {
          return Some(Response(404, Failure(RoomNotFoundError)));
        }
        var capacity, inside := aforo.value.capacidadMaxima, aforo.value.personasDentro;
        if inside >= capacity {
          return Some(Response(400, RoomFull(RoomFullError, capacity, inside)));
        }
        if faults.insert.Some? {
          return Some(Response(500, InternalError(InternalErrorMessage, faults.insert.value.message)));
        }
        var m := Movimiento(nextId, req.socioId, salaId, req.esInvitado, now, None);
        if Valid() {
          EntryPreservesCapacity(salas, movimientos, m);
        }
        movimientos := movimientos + [m];
        res := Some(Response(200, EntryRecorded(EntryMessage, nextId, capacity - inside - 1)));
        nextId := nextId + 1;
        return;
      }
      if accion == Salida {
        if faults.update.Some? {
          return Some(Response(500, InternalError(InternalErrorMessage, faults.update.value.message)));
        }
        var first := FirstClosed(movimientos, req.socioId, salaId, req.esInvitado, now);
        var updated := CloseMatching(movimientos, req.socioId, salaId, req.esInvitado, now);
        if Valid() {
          ExitPreservesCapacity(salas, movimientos, req.socioId, salaId, req.esInvitado, now);
        }
        if first.None? {
          assert updated == movimientos;
          return Some(Response(404, Failure(NoEntryError)));
        }
        movimientos := updated;
        return Some(Response(200, ExitRecorded(ExitMessage, first.value)));
      }
      res := None;
    }
  }

  const NoFaults := StoreFaults(None, None, None)

  /** Room 7 holds two. Two members enter and are told 1, then 0 places are
      left; a third is refused with both counts; after one exit the freed place
      is taken again, leaving 0 and not 1. */
  method CapacityScenario() {
    var c := new RoomController(map[7 := Sala(2, true)], [], 1);
    assert c.Valid();
    var r := c.Handle(Request(Some(1), Some(7), Some(Entrada), Some(false)), 100, NoFaults);
    assert r == Some(Response(200, EntryRecorded(EntryMessage, 1, 1)));
    OpenCountAppend([], c.movimientos[0], 7);
    r := c.Handle(Request(Some(2), Some(7), Some(Entrada), Some(false)), 101, NoFaults);
    assert r == Some(Response(200, EntryRecorded(EntryMessage, 2, 0)));
    OpenCountAppend(c.movimientos[..1], c.movimientos[1], 7);
    assert c.movimientos[..1] + [c.movimientos[1]] == c.movimientos;
    r := c.Handle(Request(Some(3), Some(7), Some(Entrada), Some(false)), 102, NoFaults);
    assert r == Some(Response(400, RoomFull(RoomFullError, 2, 2)));
    var before := c.movimientos;
    r := c.Handle(Request(Some(1), Some(7), Some(Salida), Some(false)), 103, NoFaults);
    assert r.Some? && r.value.status == 200;
    assert OpenCount(c.movimientos, 7) == 1 by {
      assert c.movimientos[0].salida == Some(103) && c.movimientos[1] == before[1];
      assert c.movimientos == [c.movimientos[0]] + [c.movimientos[1]];
    }
    r := c.Handle(Request(Some(3), Some(7), Some(Entrada), Some(false)), 104, NoFaults);
    assert r == Some(Response(200, EntryRecorded(EntryMessage, 3, 0)));
  }

  /** Nothing stops the same member from entering a room twice, and one exit
      then closes both movements. */
  method RepeatedEntryScenario() {
    var c := new RoomController(map[7 := Sala(2, true)], [], 1);
    var r := c.Handle(Request(Some(1), Some(7), Some(Entrada), Some(false)), 100, NoFaults);
    assert r.Some? && r.value.status == 200;
    OpenCountAppend([], c.movimientos[0], 7);
    r := c.Handle(Request(Some(1), Some(7), Some(Entrada), Some(false)), 101, NoFaults);
    assert r.Some? && r.value.status == 200;
    assert |c.movimientos| == 2;
    r := c.Handle(Request(Some(1), Some(7), Some(Salida), Some(false)), 102, NoFaults);
    assert r.Some? && r.value.status == 200;
    assert c.movimientos[0].salida == Some(102) && c.movimientos[1].salida == Some(102);
  }
}
