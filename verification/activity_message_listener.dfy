/** The AI worker's queue consumer: for each activity message it generates
    one recommendation and saves it. The text-generation endpoint's answer
    is a parameter, and so is the parser. */
module ActivityMessageListener {
  import opened Common
  import opened JsonNode
  import AI = ActivityAIService
  import Tracker = ActivityService

  /** The saved activity as the worker reads it off the queue: the same
      fields, with the type carried by its enum name. Nothing is lost: the
      row can be read back from the message. */
  function AsMessage(a: Tracker.Activity): (m: AI.Activity)
    ensures FromMessage(m) == Some(a)
  {
    AI.Activity(a.id, a.userId, a.duration, Tracker.TypeName(a.activityType), a.caloriesBurned,
                a.startTime, a.additionalMetrics, a.createdAt, a.updatedAt)
  }

  /** Reads a message back as an activity row; None when its type is not an
      enum constant's name. */
  function FromMessage(m: AI.Activity): Option<Tracker.Activity> {
    match Tracker.ParseTypeName(m.activityType)
    case None => None
    case Some(t) =>
      Some(Tracker.Activity(m.id, m.userId, t, m.duration, m.caloriesBurned,
                            m.startTime, m.additionalMetrics, m.createdAt, m.updatedAt))
  }

  /** `processActivity`: exactly one recommendation saved per message,
      whatever the answer, tied to the message's activity and user. */
  function ProcessActivity(saved: seq<AI.Recommendation>, readTree: string -> Option<Json>,
                           activity: AI.Activity, aiAnswer: string): (r: seq<AI.Recommendation>)
    ensures |r| == |saved| + 1 && r[..|saved|] == saved
    ensures r[|saved|].activityId == activity.id && r[|saved|].userId == activity.userId
    ensures r[|saved|].activityType == activity.activityType
  {
    var recommendation := AI.ProcessAiResponse(readTree, activity, aiAnswer);
    assert (saved + [recommendation])[..|saved|] == saved;
    saved + [recommendation]
  }

  /** From request to recommendation: when the user is valid and the broker
      accepts the message, consuming what was published saves one
      recommendation for the tracked activity's id, the request's user and
      the request's type name. */
  lemma TrackedActivityGetsRecommendation(rows: seq<Tracker.Activity>, request: Tracker.ActivityRequest,
                                          validateUser: string -> bool, publish: Tracker.Activity -> bool,
                                          newId: string, now: Timestamp,
                                          saved: seq<AI.Recommendation>, readTree: string -> Option<Json>,
                                          aiAnswer: string)
    requires Tracker.IdFree(rows, newId)
    requires validateUser(request.userId)
    requires publish(Tracker.TrackActivity(rows, request, validateUser, publish, newId, now).rows[|rows|])
    ensures var t := Tracker.TrackActivity(rows, request, validateUser, publish, newId, now);
      && |t.published| == 1
      && var after := ProcessActivity(saved, readTree, AsMessage(t.published[0]), aiAnswer);
      && |after| == |saved| + 1
      && after[|saved|].activityId == t.result.value.id
      && after[|saved|].userId == request.userId
      && after[|saved|].activityType == Tracker.TypeName(request.activityType)
  {
    var t := Tracker.TrackActivity(rows, request, validateUser, publish, newId, now);
    assert Tracker.ToResponse(t.rows[|rows|]) == t.result.value;
  }
}
