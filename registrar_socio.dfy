/** The enrollment handler: validate the request, detect exactly one face,
    create a person in the face service's person group, attach the face to it,
    insert the member into `Socios`, then retrain the group. Each step runs only
    when every step before it succeeded, and nothing already done is undone
    when a later step fails. */
module Enrollment {
  import opened Js
  import FaceApi
  import DataUrl

  const MissingDataError := "Faltan datos obligatorios: nombre, email, imagen"
  const CreatePersonError := "Error al crear person en Face API"
  const AddFaceError := "Error al añadir rostro a person"
  const RegisteredMessage := "Socio registrado correctamente"
  const InternalErrorMessage := "Error interno del servidor"

  /** The JSON body of a request; `telefono` is optional. */
  datatype Request = Request(nombre: Option<string>, email: Option<string>, telefono: Option<string>, imagen: Option<string>)

  /** A row of `Socios` as the enrollment INSERT writes it; `socioId` is the
      identity value the database assigns, and `telefono` is NULL when absent. */
  datatype SocioRow = SocioRow(socioId: int, nombre: string, email: string, telefono: Option<string>, facePersonId: string)

  /** The columns the INSERT outputs. */
  datatype SocioSummary = SocioSummary(socioId: int, nombre: string, email: string)

  /** What each collaborator the handler may call would answer: the face
      service's replies, the identity value the INSERT produces or the database
      error it throws, and the training call with its successive status polls. */
  datatype Replies = Replies(
    detect: Outcome<seq<FaceApi.DetectedFace>>,
    createPerson: Outcome<string>,
    addFace: Outcome<string>,
    insert: Outcome<int>,
    train: Outcome<()>,
    trainingPolls: seq<FaceApi.StatusReply>)

  /** The calls the handler makes into the face service and the store. */
  datatype Call =
    | Detect(image: string)
    | CreatePerson(name: string)
    | AddFace(personId: string, image: string)
    | InsertSocio(nombre: string, email: string, telefono: Option<string>, facePersonId: string)
    | Train

  datatype Body =
    | Failure(error: string)
    | Registered(message: string, socio: SocioSummary, facePersonId: string)
    | InternalError(error: string, details: string)

  predicate HasRequiredFields(req: Request) {
    Truthy(req.nombre) && Truthy(req.email) && Truthy(req.imagen)
  }

  class Registry {
    /** Every call made into the face service and the store, in order. */
    var calls: seq<Call>
    /** The `Socios` table, in insertion order. */
    var socios: seq<SocioRow>

    constructor (socios: seq<SocioRow>)
      ensures this.calls == [] && this.socios == socios
    {
      this.calls := [];
      this.socios := socios;
    }

    /** Enroll one member. `None` is a request still waiting on a training
        that every supplied poll reports as running. */
    method Register(req: Request, replies: Replies) returns (res: Option<Response<Body>>)
      modifies this
      // missing fields: no call at all
      ensures !HasRequiredFields(req) ==>
        res == Some(Response(400, Failure(MissingDataError))) && calls == old(calls) && socios == old(socios)
      ensures HasRequiredFields(req) ==>
        var image := DataUrl.StripHeader(req.imagen.value);
        var det := FaceApi.DetectFace(replies.detect);
        var person := FaceApi.CreatePerson(replies.createPerson);
        var face := FaceApi.AddFaceToPerson(replies.addFace);
        // zero or several faces: detection only
        && (det.DetectFailed? ==>
              && res == Some(Response(400, Failure(det.error)))
              && calls == old(calls) + [Detect(image)] && socios == old(socios))
        // no person created: no face added, no member row
        && (det.Detected? && person.PersonFailed? ==>
              && res == Some(Response(500, Failure(CreatePersonError)))
              && calls == old(calls) + [Detect(image), CreatePerson(req.nombre.value)] && socios == old(socios))
        // the person exists but has no face: still no member row
        && (det.Detected? && person.PersonCreated? && face.AddFaceFailed? ==>
              && res == Some(Response(500, Failure(AddFaceError)))
              && calls == old(calls) + [Detect(image), CreatePerson(req.nombre.value), AddFace(person.personId, image)]
              && socios == old(socios))
        && (det.Detected? && person.PersonCreated? && face.FaceAdded? ==>
              var steps := [Detect(image), CreatePerson(req.nombre.value), AddFace(person.personId, image),
                            InsertSocio(req.nombre.value, req.email.value, req.telefono, person.personId)];
              // the INSERT throws: caught, 500, no training
              && (replies.insert.Threw? ==>
                    && res == Some(Response(500, InternalError(InternalErrorMessage, replies.insert.error.message)))
                    && calls == old(calls) + steps && socios == old(socios))
              // one member row linked to the new person, then training, whose verdict is ignored
              && (replies.insert.Returned? ==>
                    var id := replies.insert.value;
                    && socios == old(socios) + [SocioRow(id, req.nombre.value, req.email.value, req.telefono, person.personId)]
                    && calls == old(calls) + steps + [Train]
                    && res == if FaceApi.TrainingVerdict(replies.train, replies.trainingPolls).None? then None
                              else Some(Response(200, Registered(RegisteredMessage,
                                                                 SocioSummary(id, req.nombre.value, req.email.value),
                                                                 person.personId)))))
    {
      if !Truthy(req.nombre) || !Truthy(req.email) || !Truthy(req.imagen) {
        return Some(Response(400, Failure(MissingDataError)));
      }
      var nombre, email := req.nombre.value, req.email.value;
      var image := DataUrl.StripHeader(req.imagen.value);

      calls := calls + [Detect(image)];
      var det := FaceApi.DetectFace(replies.detect);
      if det.DetectFailed? {
        return Some(Response(400, Failure(det.error)));
      }

      calls := calls + [CreatePerson(nombre)];
      var person := FaceApi.CreatePerson(replies.createPerson);
      if person.PersonFailed? {
        return Some(Response(500, Failure(CreatePersonError)));
      }
      var personId := person.personId;

      calls := calls + [AddFace(personId, image)];
      var face := FaceApi.AddFaceToPerson(replies.addFace);
      if face.AddFaceFailed? {
        return Some(Response(500, Failure(AddFaceError)));
      }

      calls := calls + [InsertSocio(nombre, email, req.telefono, personId)];
      if replies.insert.Threw? {
        return Some(Response(500, InternalError(InternalErrorMessage, replies.insert.error.message)));
      }
      var id := replies.insert.value;
      socios := socios + [SocioRow(id, nombre, email, req.telefono, personId)];

      calls := calls + [Train];
      var trained, _ := FaceApi.TrainPersonGroup(replies.train, replies.trainingPolls);
      if trained.None? {
        return None;
      }
      res := Some(Response(200, Registered(RegisteredMessage, SocioSummary(id, nombre, email), personId)));
    }
  }
}
