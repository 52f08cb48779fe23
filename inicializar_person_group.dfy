/** The administrative handler that creates the person group once and maps the
    outcome of `createPersonGroup` to an HTTP response. */
module GroupInit {
  import opened Js
  import FaceApi

  const AlreadyExistedMessage := "Person Group ya existía"
  const CreatedMessage := "Person Group creado correctamente"
  const CreateFailedError := "Error al crear Person Group"

  datatype Body =
    | Initialized(message: string, personGroupId: string)
    | InitFailed(error: string)

  /** The response for the result (or the exception) of `createPersonGroup`;
      `personGroupId` is the configured `PERSON_GROUP_ID`. */
  function Initialize(result: Outcome<FaceApi.GroupCreated>, personGroupId: string): (r: Response<Body>)
    ensures r.status == 200 <==> result.Returned? && result.value.success
    ensures r.status == 200 ==> r.body.Initialized? && r.body.personGroupId == personGroupId
    ensures r.status == 200 ==>
      r.body.message == (if result.value.alreadyExists then AlreadyExistedMessage else CreatedMessage)
    ensures result.Returned? && !result.value.success ==> r == Response(500, InitFailed(CreateFailedError))
    ensures result.Threw? ==> r == Response(500, InitFailed(result.error.message))
  {
    match result
    case Threw(e) => Response(500, InitFailed(e.message))
    case Returned(created) =>
      if created.success then
        Response(200, Initialized(if created.alreadyExists then AlreadyExistedMessage else CreatedMessage, personGroupId))
      else Response(500, InitFailed(CreateFailedError))
  }

  /** The handler as deployed, on the SDK's reply to `personGroup.create`: the
      "Error al crear Person Group" branch is never taken, and a 500 always
      carries the message of an error other than PersonGroupExists. */
  lemma InitializeFromSdk(reply: Outcome<()>, personGroupId: string)
    ensures var r := Initialize(FaceApi.CreatePersonGroup(reply), personGroupId);
      && (r.status == 200 <==> reply.Returned? || reply.error.code == FaceApi.PersonGroupExistsCode)
      && (r.status == 200 ==> r.body.message == (if reply.Returned? then CreatedMessage else AlreadyExistedMessage))
      && (r.status != 200 ==> r == Response(500, InitFailed(reply.error.message)))
  {
  }
}
