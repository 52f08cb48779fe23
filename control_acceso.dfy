/** The facility admission handler: a captured face and a declared direction
    (ENTRADA or SALIDA) become either a logged member access, a guest entry
    through the stored procedure `sp_RegistrarEntradaConInvitado`, or a refusal.
    The decision is the pure function Decide over the replies of the face
    service and of the procedure; AccessLog.Handle performs its one effect, the
    append to the `Accesos` table. */
module AccessControl {
  import opened Js
  import FaceApi
  import DataUrl

  const Entrada := "ENTRADA"
  const ProcedureErrorResult := "ERROR"
  const MissingDataError := "Faltan datos: imagen y tipoAcceso son obligatorios"
  const IdentifyError := "Error en identificación"
  const MemberNotFoundError := "Socio no encontrado o inactivo"
  const HostRequiredError := "El invitado debe venir con un socio"
  const NotRecognisedError := "Persona no reconocida. Debe ser socio o invitado acompañado"
  const InternalErrorMessage := "Error interno del servidor"
  /** The details text of the TypeError thrown when the procedure's record set is
      empty and `result[0].Resultado` is read. The wording is the JavaScript
      runtime's, so it is only indicative; an absent record set fails at
      `result[0]` instead, with other text. */
  const MissingRowError := "Cannot read properties of undefined (reading 'Resultado')"

  /** A row of `Socios`, as far as admission reads it. */
  datatype Socio = Socio(socioId: int, nombre: string, email: string, facePersonId: string, activo: bool)

  /** The columns the member lookup selects. */
  datatype SocioSummary = SocioSummary(socioId: int, nombre: string, email: string)

  /** A row of `Accesos`; `esInvitado` is the literal the INSERT writes. */
  datatype Acceso = Acceso(socioId: int, tipoAcceso: string, esInvitado: int)

  /** The JSON body of a request. */
  datatype Request = Request(
    imagen: Option<string>,
    tipoAcceso: Option<string>,
    esInvitado: Option<bool>,
    socioAnfitrionId: Option<int>)

  /** A row of the record set the guest-entry procedure returns. Its body is
      not part of this model, so its reply is an input. */
  datatype ProcedureRow = ProcedureRow(resultado: string, mensaje: string, invitacionesRestantes: int)

  /** What each collaborator the handler may call would answer: the face
      service, the guest procedure, and whether the member SELECT or the
      access INSERT would throw. */
  datatype Replies = Replies(
    detect: Outcome<seq<FaceApi.DetectedFace>>,
    identify: Outcome<seq<FaceApi.IdentifyEntry>>,
    procedure: Outcome<seq<ProcedureRow>>,
    memberQueryFault: Option<Error>,
    accessInsertFault: Option<Error>)

  /** The calls the handler makes into its collaborators, in order, up to its
      one write. */
  datatype Call =
    | Detect(image: string)
    | Identify(query: FaceApi.IdentifyQuery)
    | FindMember(personId: string)
    | RunGuestEntry(socioAnfitrionId: int)

  datatype Body =
    | Failure(error: string)
    | MemberAdmitted(socio: SocioSummary, tipoAcceso: string, confianza: FaceApi.Confidence)
    | GuestAdmitted(mensaje: string, invitacionesRestantes: int)
    | InternalError(error: string, details: string)

  /** The response, the calls made, and the `Accesos` row inserted, if any. */
  datatype Decision = Decision(response: Response<Body>, calls: seq<Call>, written: Option<Acceso>)

  /** The member lookup: an active member enrolled under `personId`, if any.
      The query has no ORDER BY, so which one of several is unspecified. */
  function FindActiveMember(socios: seq<Socio>, personId: string): (r: Option<Socio>)
    ensures r.Some? ==> r.value in socios && r.value.activo && r.value.facePersonId == personId
    ensures r.None? <==> forall i :: 0 <= i < |socios| ==> !(socios[i].activo && socios[i].facePersonId == personId)
  {
    if socios == [] then None
    else if socios[0].activo && socios[0].facePersonId == personId then Some(socios[0])
    else
      var r := FindActiveMember(socios[1..], personId);
      assert r.None? ==> forall i :: 0 <= i < |socios| ==> !(socios[i].activo && socios[i].facePersonId == personId) by {
        if r.None? {
          forall i | 0 < i < |socios| ensures !(socios[i].activo && socios[i].facePersonId == personId) {
            assert socios[i] == socios[1..][i - 1];
          }
        }
      }
      r
  }

  /** The fields the handler insists on. */
  predicate HasRequiredFields(req: Request) {
    Truthy(req.imagen) && Truthy(req.tipoAcceso)
  }

  /** The admission decision for request `req`, given the replies of the face
      service and of the guest procedure, the `Socios` table, and the
      configured person group. */
  function Decide(req: Request, replies: Replies, socios: seq<Socio>, personGroupId: string): (d: Decision)
    // missing fields: refused before any call
    ensures !HasRequiredFields(req) ==> d == Decision(Response(400, Failure(MissingDataError)), [], None)
    // an access row is written exactly when an active member is recognised ...
    ensures d.written.Some? <==>
      && HasRequiredFields(req)
      && FaceApi.DetectFace(replies.detect).Detected?
      && FaceApi.IdentifyFace(replies.identify).Identified?
      && replies.memberQueryFault.None?
      && FindActiveMember(socios, FaceApi.IdentifyFace(replies.identify).personId).Some?
      && replies.accessInsertFault.None?
    // ... and it is that member's row for this direction, never as a guest
    ensures d.written.Some? ==>
      var m := FindActiveMember(socios, FaceApi.IdentifyFace(replies.identify).personId).value;
      && d.written.value == Acceso(m.socioId, req.tipoAcceso.value, 0)
      && d.response == Response(200, MemberAdmitted(SocioSummary(m.socioId, m.nombre, m.email),
                                                    req.tipoAcceso.value,
                                                    FaceApi.IdentifyFace(replies.identify).confidence))
  {
    if !Truthy(req.imagen) || !Truthy(req.tipoAcceso) then
      Decision(Response(400, Failure(MissingDataError)), [], None)
    else
      var tipoAcceso := req.tipoAcceso.value;
      var detect := [Detect(DataUrl.StripHeader(req.imagen.value))];
      var det := FaceApi.DetectFace(replies.detect);
      if det.DetectFailed? then
        Decision(Response(400, Failure(det.error)), detect, None)
      else
        var identify := detect + [Identify(FaceApi.IdentifyRequest(det.faceId, personGroupId))];
        var idr := FaceApi.IdentifyFace(replies.identify);
        if idr.IdentifyFailed? then
          Decision(Response(500, Failure(IdentifyError)), identify, None)
        else if idr.Identified? then
          var lookup := identify + [FindMember(idr.personId)];
          if replies.memberQueryFault.Some? then
            Decision(Response(500, InternalError(InternalErrorMessage, replies.memberQueryFault.value.message)), lookup, None)
          else match FindActiveMember(socios, idr.personId)
          case None => Decision(Response(404, Failure(MemberNotFoundError)), lookup, None)
          case Some(m) =>
            if replies.accessInsertFault.Some? then
              Decision(Response(500, InternalError(InternalErrorMessage, replies.accessInsertFault.value.message)), lookup, None)
            else
              Decision(Response(200, MemberAdmitted(SocioSummary(m.socioId, m.nombre, m.email), tipoAcceso, idr.confidence)),
                       lookup, Some(Acceso(m.socioId, tipoAcceso, 0)))
        else if TruthyFlag(req.esInvitado) && tipoAcceso == Entrada then
          if !TruthyId(req.socioAnfitrionId) then
            Decision(Response(400, Failure(HostRequiredError)), identify, None)
          else
            var calls := identify + [RunGuestEntry(req.socioAnfitrionId.value)];
            match replies.procedure
            case Threw(e) => Decision(Response(500, InternalError(InternalErrorMessage, e.message)), calls, None)
            case Returned(rows) =>
              if rows == [] then
                Decision(Response(500, InternalError(InternalErrorMessage, MissingRowError)), calls, None)
              else if rows[0].resultado == ProcedureErrorResult then
                Decision(Response(400, Failure(rows[0].mensaje)), calls, None)
              else
                Decision(Response(200, GuestAdmitted(rows[0].mensaje, rows[0].invitacionesRestantes)), calls, None)
        else
          Decision(Response(403, Failure(NotRecognisedError)), identify, None)
  }

  /** Every call after detection is about the detected face: identification asks
      for it alone, for one candidate at threshold 0.7. */
  lemma CallsFollowDetection(req: Request, replies: Replies, socios: seq<Socio>, personGroupId: string)
    requires HasRequiredFields(req)
    ensures var d := Decide(req, replies, socios, personGroupId);
      var det := FaceApi.DetectFace(replies.detect);
      && d.calls[0] == Detect(DataUrl.StripHeader(req.imagen.value))
      && (det.DetectFailed? <==> |d.calls| == 1)
      && (|d.calls| > 1 ==> d.calls[1] == Identify(FaceApi.IdentifyRequest(det.faceId, personGroupId)))
  {
  }

  /** A detection failure is answered with the detector's error; nothing else is called. */
  lemma DetectionFailureStops(req: Request, replies: Replies, socios: seq<Socio>, personGroupId: string)
    requires HasRequiredFields(req)
    requires FaceApi.DetectFace(replies.detect).DetectFailed?
    ensures Decide(req, replies, socios, personGroupId) ==
      Decision(Response(400, Failure(FaceApi.DetectFace(replies.detect).error)),
               [Detect(DataUrl.StripHeader(req.imagen.value))], None)
  {
  }

  /** Zero or several faces: refused after detection alone, before identification or any write. */
  lemma NotExactlyOneFaceStops(req: Request, replies: Replies, socios: seq<Socio>, personGroupId: string)
    requires HasRequiredFields(req)
    requires replies.detect.Returned? && |replies.detect.value| != 1
    ensures var d := Decide(req, replies, socios, personGroupId);
      && d.response.status == 400
      && d.response.body.error == (if |replies.detect.value| == 0 then FaceApi.NoFaceError else FaceApi.MultipleFacesError)
      && |d.calls| == 1
      && d.written.None?
  {
  }

  /** A failing identification service gives 500 and writes nothing. */
  lemma IdentifyFailureStops(req: Request, replies: Replies, socios: seq<Socio>, personGroupId: string)
    requires HasRequiredFields(req)
    requires FaceApi.DetectFace(replies.detect).Detected?
    requires replies.identify.Threw?
    ensures var d := Decide(req, replies, socios, personGroupId);
      && d.response == Response(500, Failure(IdentifyError))
      && |d.calls| == 2 && d.written.None?
  {
  }

  /** A recognised face with no active member behind it gives 404 and writes nothing. */
  lemma UnknownMemberRefused(req: Request, replies: Replies, socios: seq<Socio>, personGroupId: string)
    requires HasRequiredFields(req)
    requires FaceApi.DetectFace(replies.detect).Detected?
    requires FaceApi.IdentifyFace(replies.identify).Identified?
    requires replies.memberQueryFault.None?
    requires forall i :: 0 <= i < |socios| ==>
      !(socios[i].activo && socios[i].facePersonId == FaceApi.IdentifyFace(replies.identify).personId)
    ensures var d := Decide(req, replies, socios, personGroupId);
      d.response == Response(404, Failure(MemberNotFoundError)) && d.written.None?
  {
  }

  /** A recognised member is admitted as a member whatever the guest flag says. */
  lemma MemberIgnoresGuestFlag(req: Request, replies: Replies, socios: seq<Socio>, personGroupId: string, flag: Option<bool>)
    requires HasRequiredFields(req)
    requires FaceApi.DetectFace(replies.detect).Detected?
    requires FaceApi.IdentifyFace(replies.identify).Identified?
    ensures Decide(req.(esInvitado := flag), replies, socios, personGroupId) == Decide(req, replies, socios, personGroupId)
  {
  }

  /** An unrecognised guest entering without a host is refused before the procedure runs. */
  lemma GuestWithoutHostRefused(req: Request, replies: Replies, socios: seq<Socio>, personGroupId: string)
    requires Truthy(req.imagen) && req.tipoAcceso == Some(Entrada) && TruthyFlag(req.esInvitado)
    requires !TruthyId(req.socioAnfitrionId)
    requires FaceApi.DetectFace(replies.detect).Detected?
    requires FaceApi.IdentifyFace(replies.identify).Unidentified?
    ensures var d := Decide(req, replies, socios, personGroupId);
      && d.response == Response(400, Failure(HostRequiredError))
      && forall i :: 0 <= i < |d.calls| ==> !d.calls[i].RunGuestEntry?
  {
  }

  /** The guest path: an 'ERROR' reply gives 400 with its message, any other
      reply row gives 200 with the remaining invitations it reports. */
  lemma GuestEntryOutcome(req: Request, replies: Replies, socios: seq<Socio>, personGroupId: string)
    requires Truthy(req.imagen) && req.tipoAcceso == Some(Entrada) && TruthyFlag(req.esInvitado)
    requires TruthyId(req.socioAnfitrionId)
    requires FaceApi.DetectFace(replies.detect).Detected?
    requires FaceApi.IdentifyFace(replies.identify).Unidentified?
    requires replies.procedure.Returned? && |replies.procedure.value| > 0
    ensures var d := Decide(req, replies, socios, personGroupId);
      var row := replies.procedure.value[0];
      && d.written.None?
      && d.calls[|d.calls| - 1] == RunGuestEntry(req.socioAnfitrionId.value)
      && d.response == if row.resultado == ProcedureErrorResult
                       then Response(400, Failure(row.mensaje))
                       else Response(200, GuestAdmitted(row.mensaje, row.invitacionesRestantes))
  {
  }

  /** Unrecognised and not a guest entering (a guest on SALIDA, or no guest
      flag): 403, and the guest procedure is not run. */
  lemma UnrecognisedRefused(req: Request, replies: Replies, socios: seq<Socio>, personGroupId: string)
    requires HasRequiredFields(req)
    requires !(TruthyFlag(req.esInvitado) && req.tipoAcceso.value == Entrada)
    requires FaceApi.DetectFace(replies.detect).Detected?
    requires FaceApi.IdentifyFace(replies.identify).Unidentified?
    ensures var d := Decide(req, replies, socios, personGroupId);
      && d.response == Response(403, Failure(NotRecognisedError))
      && |d.calls| == 2 && d.written.None?
  {
  }

  /** The guest procedure runs only for an unrecognised face declared a guest
      entering with a host, and then it is the last call, made for that host. */
  lemma GuestProcedureOnlyForHostedGuests(req: Request, replies: Replies, socios: seq<Socio>, personGroupId: string)
    ensures var d := Decide(req, replies, socios, personGroupId);
      (exists i :: 0 <= i < |d.calls| && d.calls[i].RunGuestEntry?) ==>
        && FaceApi.IdentifyFace(replies.identify).Unidentified?
        && TruthyFlag(req.esInvitado) && req.tipoAcceso == Some(Entrada)
        && TruthyId(req.socioAnfitrionId)
        && d.calls[|d.calls| - 1] == RunGuestEntry(req.socioAnfitrionId.value)
  {
  }

  class AccessLog {
    /** The `Socios` table, which admission only reads. */
    const socios: seq<Socio>
    /** The `Accesos` table, in insertion order. */
    var accesos: seq<Acceso>

    constructor (socios: seq<Socio>, accesos: seq<Acceso>)
      ensures this.socios == socios && this.accesos == accesos
    {
      this.socios := socios;
      this.accesos := accesos;
    }

    /** Handle one admission request: answer as Decide does, and append the
        access row it writes, if any. */
    method Handle(req: Request, replies: Replies, personGroupId: string) returns (res: Response<Body>)
      modifies this
      ensures res == Decide(req, replies, socios, personGroupId).response
      ensures accesos == old(accesos) + match Decide(req, replies, socios, personGroupId).written
                                       case None => []
                                       case Some(row) => [row]
    {
      var d := Decide(req, replies, socios, personGroupId);
      if d.written.Some? {
        accesos := accesos + [d.written.value];
      }
      res := d.response;
    }
  }
}
