/** The wrapper around the face-recognition SDK. Each SDK call is an input (what
    the awaited call returned, or what it threw); the wrapper's job, modelled
    here, is to classify that reply into the result object the handlers test.
    Only `createPersonGroup` lets an exception escape; every other wrapper turns
    a thrown error into a failure result. */
module FaceApi {
  import opened Js

  /** The confidence the service reports for a candidate: a float the model
      passes through and never compares. */
  datatype Confidence = Confidence(reported: real)

  datatype Rectangle = Rectangle(top: int, left: int, width: int, height: int)

  /** One entry of the list `face.detectWithStream` resolves to. */
  datatype DetectedFace = DetectedFace(faceId: string, faceRectangle: Rectangle)

  /** One candidate of an identification, and one entry of the list `face.identify` resolves to. */
  datatype Candidate = Candidate(personId: string, confidence: Confidence)
  datatype IdentifyEntry = IdentifyEntry(faceId: string, candidates: seq<Candidate>)

  /** The options `identifyFace` sends with the face to identify. */
  datatype IdentifyQuery = IdentifyQuery(
    faceIds: seq<string>,
    personGroupId: string,
    maxNumOfCandidatesReturned: int,
    confidenceThreshold: real)

  const NoFaceError := "No se detectó ningún rostro"
  const MultipleFacesError := "Se detectaron múltiples rostros. Solo debe aparecer una persona"
  const NotRecognisedMessage := "Rostro no reconocido"
  const PersonGroupExistsCode := "PersonGroupExists"
  const TrainingFailedError := "Entrenamiento fallido"
  const RunningStatus := "running"
  const SucceededStatus := "succeeded"
  const MaxCandidates := 1
  const ConfidenceThreshold := 0.7

  // ---------------------------------------------------------------- detectFace

  datatype DetectResult =
    | Detected(faceId: string, faceRectangle: Rectangle)
    | DetectFailed(error: string)

  /** Exactly one subject per image: zero or several faces are failures, and an
      SDK exception becomes a failure carrying its message. */
  function DetectFace(reply: Outcome<seq<DetectedFace>>): (r: DetectResult)
    ensures r.Detected? <==> reply.Returned? && |reply.value| == 1
    ensures r.Detected? ==> r == Detected(reply.value[0].faceId, reply.value[0].faceRectangle)
    ensures reply.Returned? && |reply.value| == 0 ==> r == DetectFailed(NoFaceError)
    ensures reply.Returned? && |reply.value| > 1 ==> r == DetectFailed(MultipleFacesError)
    ensures reply.Threw? ==> r == DetectFailed(reply.error.message)
  {
    match reply
    case Threw(e) => DetectFailed(e.message)
    case Returned(faces) =>
      if |faces| == 0 then DetectFailed(NoFaceError)
      else if |faces| > 1 then DetectFailed(MultipleFacesError)
      else Detected(faces[0].faceId, faces[0].faceRectangle)
  }

  // -------------------------------------------------------------- identifyFace

  datatype IdentifyResult =
    | Identified(personId: string, confidence: Confidence)
    | Unidentified(message: string)
    | IdentifyFailed(error: string)

  /** What `identifyFace` asks the service: the one detected face, against the
      configured person group, for a single candidate at threshold 0.7. */
  function IdentifyRequest(faceId: string, personGroupId: string): (q: IdentifyQuery)
    ensures q.faceIds == [faceId] && q.personGroupId == personGroupId
    ensures q.maxNumOfCandidatesReturned == MaxCandidates && q.confidenceThreshold == ConfidenceThreshold
  {
    IdentifyQuery([faceId], personGroupId, MaxCandidates, ConfidenceThreshold)
  }

  /** "Not recognised" is a success; only an SDK exception is a failure. A
      recognised face is the first candidate of the first result. */
  function IdentifyFace(reply: Outcome<seq<IdentifyEntry>>): (r: IdentifyResult)
    ensures r.IdentifyFailed? <==> reply.Threw?
    ensures r.IdentifyFailed? ==> r.error == reply.error.message
    ensures r.Unidentified? <==> reply.Returned? && (|reply.value| == 0 || |reply.value[0].candidates| == 0)
    ensures r.Unidentified? ==> r.message == NotRecognisedMessage
    ensures r.Identified? ==>
      && reply.Returned? && |reply.value| > 0 && |reply.value[0].candidates| > 0
      && r.personId == reply.value[0].candidates[0].personId
      && r.confidence == reply.value[0].candidates[0].confidence
  {
    match reply
    case Threw(e) => IdentifyFailed(e.message)
    case Returned(entries) =>
      if |entries| == 0 || |entries[0].candidates| == 0 then Unidentified(NotRecognisedMessage)
      else
        var candidate := entries[0].candidates[0];
        Identified(candidate.personId, candidate.confidence)
  }

  // ------------------------------------------------- createPerson, addFaceToPerson

  datatype PersonResult = PersonCreated(personId: string) | PersonFailed(error: string)

  /** `personGroupPerson.create` resolving to a person gives its id; a throw becomes a failure. */
  function CreatePerson(reply: Outcome<string>): (r: PersonResult)
    ensures r.PersonCreated? <==> reply.Returned?
    ensures r.PersonCreated? ==> r.personId == reply.value
    ensures r.PersonFailed? ==> r.error == reply.error.message
  {
    match reply
    case Returned(personId) => PersonCreated(personId)
    case Threw(e) => PersonFailed(e.message)
  }

  datatype AddFaceResult = FaceAdded(persistedFaceId: string) | AddFaceFailed(error: string)

  /** `personGroupPerson.addFaceFromStream` resolving gives the persisted face id; a throw becomes a failure. */
  function AddFaceToPerson(reply: Outcome<string>): (r: AddFaceResult)
    ensures r.FaceAdded? <==> reply.Returned?
    ensures r.FaceAdded? ==> r.persistedFaceId == reply.value
    ensures r.AddFaceFailed? ==> r.error == reply.error.message
  {
    match reply
    case Returned(faceId) => FaceAdded(faceId)
    case Threw(e) => AddFaceFailed(e.message)
  }

  // --------------------------------------------------------- createPersonGroup

  /** The object `createPersonGroup` resolves to; its `exists` field, absent when false, is `alreadyExists`. */
  datatype GroupCreated = GroupCreated(success: bool, alreadyExists: bool)

  /** An existing group counts as success; every other error is rethrown, so a
      resolved result never has `success == false`. */
  function CreatePersonGroup(reply: Outcome<()>): (r: Outcome<GroupCreated>)
    ensures r.Returned? ==> r.value.success
    ensures r.Returned? && r.value.alreadyExists <==> reply.Threw? && reply.error.code == PersonGroupExistsCode
    ensures r.Threw? <==> reply.Threw? && reply.error.code != PersonGroupExistsCode
    ensures r.Threw? ==> r.error == reply.error
  {
    match reply
    case Returned(_) => Returned(GroupCreated(true, false))
    case Threw(e) =>
      if e.code == PersonGroupExistsCode then Returned(GroupCreated(true, true)) else Threw(e)
  }

  // ---------------------------------------------------------- trainPersonGroup

  /** What one `getTrainingStatus` poll did: reported a status, or threw. */
  datatype StatusReply = Status(status: string) | StatusThrew(error: Error)

  datatype TrainResult = Trained | TrainFailed(error: string)

  /** Number of leading polls that reported 'running'. */
  function RunningPrefix(polls: seq<StatusReply>): (k: nat)
    ensures k <= |polls|
    ensures forall j :: 0 <= j < k ==> polls[j] == Status(RunningStatus)
    ensures k < |polls| ==> polls[k] != Status(RunningStatus)
  {
    if polls == [] || polls[0] != Status(RunningStatus) then 0 else 1 + RunningPrefix(polls[1..])
  }

  /** The result of `trainPersonGroup` when the `train` call did `train` and the
      successive polls report `polls`; `None` when every poll supplied still
      reports 'running', where the source would go on polling. */
  function TrainingVerdict(train: Outcome<()>, polls: seq<StatusReply>): Option<TrainResult> {
    if train.Threw? then Some(TrainFailed(train.error.message))
    else
      var k := RunningPrefix(polls);
      if k == |polls| then None
      else match polls[k]
        case StatusThrew(e) => Some(TrainFailed(e.message))
        case Status(s) => if s == SucceededStatus then Some(Trained) else Some(TrainFailed(TrainingFailedError))
  }

  /** Number of polls the do-while loop issues. */
  function PollsIssued(train: Outcome<()>, polls: seq<StatusReply>): nat {
    if train.Threw? then 0
    else if RunningPrefix(polls) == |polls| then |polls|
    else RunningPrefix(polls) + 1
  }

  /** Start training, then poll until the status is no longer 'running'. The
      one-second delay between polls is not modelled. */
  method TrainPersonGroup(train: Outcome<()>, polls: seq<StatusReply>) returns (r: Option<TrainResult>, polled: nat)
    ensures r == TrainingVerdict(train, polls)
    ensures polled == PollsIssued(train, polls)
  {
    if train.Threw? {
      return Some(TrainFailed(train.error.message)), 0;
    }
    polled := 0;
    var last := Status(RunningStatus);
    while last == Status(RunningStatus) && polled < |polls|
      invariant polled <= |polls|
      invariant forall j :: 0 <= j < polled - 1 ==> polls[j] == Status(RunningStatus)
      invariant polled > 0 ==> last == polls[polled - 1]
      invariant polled == 0 ==> last == Status(RunningStatus)
      decreases |polls| - polled
    {
      last := polls[polled];
      polled := polled + 1;
    }
    if last == Status(RunningStatus) {
      assert RunningPrefix(polls) == |polls|;
      r := None;
    } else {
      assert RunningPrefix(polls) == polled - 1;
      match last
      case StatusThrew(e) => r := Some(TrainFailed(e.message));
      case Status(s) => r := if s == SucceededStatus then Some(Trained) else Some(TrainFailed(TrainingFailedError));
    }
  }

  /** Training succeeds if and only if the `train` call returned and the first
      poll that is not 'running' reports 'succeeded'. */
  lemma TrainingSucceedsIff(train: Outcome<()>, polls: seq<StatusReply>)
    ensures TrainingVerdict(train, polls) == Some(Trained) <==>
      && train.Returned?
      && exists k :: 0 <= k < |polls| && polls[k] == Status(SucceededStatus)
           && forall j :: 0 <= j < k ==> polls[j] == Status(RunningStatus)
  {
    if train.Returned? {
      var n := RunningPrefix(polls);
      if n < |polls| && polls[n] == Status(SucceededStatus) {
        assert TrainingVerdict(train, polls) == Some(Trained);
      }
      if exists k :: 0 <= k < |polls| && polls[k] == Status(SucceededStatus)
           && forall j :: 0 <= j < k ==> polls[j] == Status(RunningStatus) {
        var k :| 0 <= k < |polls| && polls[k] == Status(SucceededStatus)
           && forall j :: 0 <= j < k ==> polls[j] == Status(RunningStatus);
        assert polls[k] != Status(RunningStatus);
        assert n == k;
      }
    }
  }
}
