/** Activity tracking over the activity collection, modelled as the sequence
    of stored rows in the repository's iteration order. User validation and
    the message publisher are oracles supplied by the caller. */
module ActivityService {
  import opened Common
  import opened JsonNode

  datatype ActivityType =
    | Running | Cycling | Swimming | Walking | Yoga | Weightlifting | Hiit | Dance
    | Pilates | Hiking | Boxing | Aerobics | Cardio | StrengthTraining | CrossTraining | Other

  /** Enum lookup by constant name (`ActivityType.valueOf`); None where
      Java throws. */
  function ParseTypeName(name: string): Option<ActivityType> {
    if name == "RUNNING" then Some(Running)
    else if name == "CYCLING" then Some(Cycling)
    else if name == "SWIMMING" then Some(Swimming)
    else if name == "WALKING" then Some(Walking)
    else if name == "YOGA" then Some(Yoga)
    else if name == "WEIGHTLIFTING" then Some(Weightlifting)
    else if name == "HIIT" then Some(Hiit)
    else if name == "DANCE" then Some(Dance)
    else if name == "PILATES" then Some(Pilates)
    else if name == "HIKING" then Some(Hiking)
    else if name == "BOXING" then Some(Boxing)
    else if name == "AEROBICS" then Some(Aerobics)
    else if name == "CARDIO" then Some(Cardio)
    else if name == "STRENGTH_TRAINING" then Some(StrengthTraining)
    else if name == "CROSS_TRAINING" then Some(CrossTraining)
    else if name == "OTHER" then Some(Other)
    else None
  }

  /** The enum constant's name, as the message body carries it; looking the
      name up gives the constant back. */
  function TypeName(t: ActivityType): (r: string)
    ensures ParseTypeName(r) == Some(t)
  {
    match t
    case Running => "RUNNING"
    case Cycling => "CYCLING"
    case Swimming => "SWIMMING"
    case Walking => "WALKING"
    case Yoga => "YOGA"
    case Weightlifting => "WEIGHTLIFTING"
    case Hiit => "HIIT"
    case Dance => "DANCE"
    case Pilates => "PILATES"
    case Hiking => "HIKING"
    case Boxing => "BOXING"
    case Aerobics => "AEROBICS"
    case Cardio => "CARDIO"
    case StrengthTraining => "STRENGTH_TRAINING"
    case CrossTraining => "CROSS_TRAINING"
    case Other => "OTHER"
  }

  datatype ActivityRequest = ActivityRequest(
    userId: string,
    activityType: ActivityType,
    duration: int,
    caloriesBurned: int,
    startTime: Timestamp,
    additionalMetrics: map<string, Json>)

  /** A stored activity row. */
  datatype Activity = Activity(
    id: string,
    userId: string,
    activityType: ActivityType,
    duration: int,
    caloriesBurned: int,
    startTime: Timestamp,
    additionalMetrics: map<string, Json>,
    createdAt: Timestamp,
    updatedAt: Timestamp)

  datatype ActivityResponse = ActivityResponse(
    id: string,
    userId: string,
    activityType: ActivityType,
    duration: int,
    caloriesBurned: int,
    startTime: Timestamp,
    additionalMetrics: map<string, Json>,
    createdAt: Timestamp,
    updatedAt: Timestamp)

  /** The rows after a call, what the call returned, and the messages it
      handed to the broker. */
  datatype Tracking = Tracking(rows: seq<Activity>, result: Result<ActivityResponse>, published: seq<Activity>)

  const ActivityNotFound := "Activity not found with id: "
  const InvalidUser := "Invalid user ID: "

  predicate IdFree(rows: seq<Activity>, id: string) {
    forall k :: 0 <= k < |rows| ==> rows[k].id != id
  }

  predicate DistinctIds(rows: seq<Activity>) {
    forall j, k :: 0 <= j < k < |rows| ==> rows[j].id != rows[k].id
  }

  /** The row the builder assembles from a request: every request field
      copied, id and timestamps left to the database. */
  predicate Carries(row: Activity, request: ActivityRequest) {
    && row.userId == request.userId
    && row.activityType == request.activityType
    && row.duration == request.duration
    && row.caloriesBurned == request.caloriesBurned
    && row.startTime == request.startTime
    && row.additionalMetrics == request.additionalMetrics
  }

  /** Reads a response back as the row it describes. */
  function FromResponse(r: ActivityResponse): Activity {
    Activity(r.id, r.userId, r.activityType, r.duration, r.caloriesBurned,
             r.startTime, r.additionalMetrics, r.createdAt, r.updatedAt)
  }

  /** `convertToResponse`: a lossless copy of all nine fields, so the row can
      be read back from the response. */
  function ToResponse(a: Activity): (r: ActivityResponse)
    ensures FromResponse(r) == a
  {
    ActivityResponse(a.id, a.userId, a.activityType, a.duration, a.caloriesBurned,
                     a.startTime, a.additionalMetrics, a.createdAt, a.updatedAt)
  }

  /** `trackActivity`. An unknown user is refused before anything is stored
      or sent. Otherwise one row carrying the request is appended under the
      database's id and timestamps (`newId`, `now`); the saved row is then
      offered to the broker, and whether or not the broker accepts it, the
      saved row's projection is returned and the store keeps the row. */
  function TrackActivity(rows: seq<Activity>, request: ActivityRequest,
                         validateUser: string -> bool, publish: Activity -> bool,
                         newId: string, now: Timestamp): (t: Tracking)
    requires IdFree(rows, newId)
    ensures !validateUser(request.userId) ==>
      && t.rows == rows
      && t.published == []
      && t.result == Failure(InvalidUser + request.userId)
    ensures validateUser(request.userId) ==>
      && |t.rows| == |rows| + 1
      && t.rows[..|rows|] == rows
      && Carries(t.rows[|rows|], request)
      && t.rows[|rows|].id == newId
      && t.result.Success?
      && FromResponse(t.result.value) == t.rows[|rows|]
      && (publish(t.rows[|rows|]) ==> t.published == [t.rows[|rows|]])
      && (!publish(t.rows[|rows|]) ==> t.published == [])
  {
    if !validateUser(request.userId) then
      Tracking(rows, Failure(InvalidUser + request.userId), [])
    else
      var row := Activity(newId, request.userId, request.activityType, request.duration,
                          request.caloriesBurned, request.startTime, request.additionalMetrics, now, now);
      var saved := rows + [row];
      var sent := if publish(row) then [row] else [];
      assert saved[..|rows|] == rows;
      Tracking(saved, Success(ToResponse(row)), sent)
  }

  /** `findByUserId`: the user's rows, in store order. */
  function OfUser(rows: seq<Activity>, userId: string): (r: seq<Activity>)
    ensures |r| <= |rows|
    ensures forall a :: a in r <==> a in rows && a.userId == userId
    decreases |rows|
  {
    if rows == [] then []
    else
      var last := |rows| - 1;
      assert rows == rows[..last] + [rows[last]];
      OfUser(rows[..last], userId) + (if rows[last].userId == userId then [rows[last]] else [])
  }

  /** The stream-and-map over the user's rows. */
  function Responses(rows: seq<Activity>): (r: seq<ActivityResponse>)
    ensures |r| == |rows|
    ensures forall i :: 0 <= i < |rows| ==> FromResponse(r[i]) == rows[i]
    decreases |rows|
  {
    if rows == [] then []
    else
      var last := |rows| - 1;
      Responses(rows[..last]) + [ToResponse(rows[last])]
  }

  /** `getActivity`: one projection per row of the user, in store order,
      computed in one pass over the store. */
  method GetActivity(rows: seq<Activity>, userId: string) returns (r: seq<ActivityResponse>)
    ensures r == Responses(OfUser(rows, userId))
    ensures |r| == |OfUser(rows, userId)|
    ensures forall i :: 0 <= i < |r| ==> FromResponse(r[i]) == OfUser(rows, userId)[i]
  {
    r := [];
    var n := 0;
    while n < |rows|
      invariant n <= |rows|
      invariant r == Responses(OfUser(rows[..n], userId))
    {
      assert rows[..n + 1][..n] == rows[..n];
      if rows[n].userId == userId {
        var mine := OfUser(rows[..n], userId);
        assert OfUser(rows[..n + 1], userId) == mine + [rows[n]];
        assert (mine + [rows[n]])[..|mine|] == mine;
        r := r + [ToResponse(rows[n])];
      }
      n := n + 1;
    }
    assert rows[..n] == rows;
  }

  /** `findById`: the first row with the id. */
  function FindById(rows: seq<Activity>, id: string): (r: Option<Activity>)
    ensures r.None? <==> IdFree(rows, id)
    ensures r.Some? ==> r.value in rows && r.value.id == id
    decreases |rows|
  {
    if rows == [] then None
    else if rows[0].id == id then Some(rows[0])
    else FindById(rows[1..], id)
  }

  /** `getActivityById`. */
  function GetActivityById(rows: seq<Activity>, id: string): (r: Result<ActivityResponse>)
    ensures r.Failure? <==> IdFree(rows, id)
    ensures r.Failure? ==> r.error == ActivityNotFound + id
    ensures r.Success? ==> FromResponse(r.value) in rows && r.value.id == id
  {
    match FindById(rows, id)
    case None => Failure(ActivityNotFound + id)
    case Some(a) => Success(ToResponse(a))
  }

  // ----- properties -----

  /** The response and the store do not depend on whether publishing
      succeeds; only the messages sent do. */
  lemma PublishFailureIsInvisible(rows: seq<Activity>, request: ActivityRequest, validateUser: string -> bool,
                                  publish1: Activity -> bool, publish2: Activity -> bool, newId: string, now: Timestamp)
    requires IdFree(rows, newId)
    ensures var t1 := TrackActivity(rows, request, validateUser, publish1, newId, now);
            var t2 := TrackActivity(rows, request, validateUser, publish2, newId, now);
            t1.rows == t2.rows && t1.result == t2.result
  {
  }

  /** Tracking keeps the ids distinct. */
  lemma TrackPreservesDistinctIds(rows: seq<Activity>, request: ActivityRequest, validateUser: string -> bool,
                                  publish: Activity -> bool, newId: string, now: Timestamp)
    requires IdFree(rows, newId) && DistinctIds(rows)
    ensures DistinctIds(TrackActivity(rows, request, validateUser, publish, newId, now).rows)
  {
  }

  /** With distinct ids, the lookup returns the projection of the one row
      that has the id. */
  lemma {:induction false} GetByIdFindsTheRow(rows: seq<Activity>, k: nat)
    requires DistinctIds(rows) && k < |rows|
    ensures GetActivityById(rows, rows[k].id) == Success(ToResponse(rows[k]))
    decreases k
  {
    if k > 0 {
      assert rows[0].id != rows[k].id;
      assert rows[1..][k - 1] == rows[k];
      GetByIdFindsTheRow(rows[1..], k - 1);
    }
  }

  /** A just-tracked activity is found by its id, with the projection
      tracking returned. */
  lemma GetAfterTrack(rows: seq<Activity>, request: ActivityRequest, validateUser: string -> bool,
                      publish: Activity -> bool, newId: string, now: Timestamp)
    requires IdFree(rows, newId) && DistinctIds(rows)
    requires validateUser(request.userId)
    ensures var t := TrackActivity(rows, request, validateUser, publish, newId, now);
      GetActivityById(t.rows, newId) == t.result
  {
    var t := TrackActivity(rows, request, validateUser, publish, newId, now);
    TrackPreservesDistinctIds(rows, request, validateUser, publish, newId, now);
    GetByIdFindsTheRow(t.rows, |rows|);
  }

  /** Tracking appends the new row to its user's list and leaves every
      other user's list as it was. */
  lemma ListAfterTrack(rows: seq<Activity>, request: ActivityRequest, validateUser: string -> bool,
                       publish: Activity -> bool, newId: string, now: Timestamp, userId: string)
    requires IdFree(rows, newId)
    requires validateUser(request.userId)
    ensures var t := TrackActivity(rows, request, validateUser, publish, newId, now);
      && (userId == request.userId ==> OfUser(t.rows, userId) == OfUser(rows, userId) + [t.rows[|rows|]])
      && (userId != request.userId ==> OfUser(t.rows, userId) == OfUser(rows, userId))
  {
    var t := TrackActivity(rows, request, validateUser, publish, newId, now);
    assert t.rows[..|t.rows| - 1] == rows;
  }
}
