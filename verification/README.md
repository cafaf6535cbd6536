# Fitness app: recommendation post-processing and the two CRUD services, in Dafny

This project models the core of a small fitness-tracking system made of
microservices:

- **The AI worker's reply post-processor** (`ActivityAIService`). It gets the
  JSON envelope that the text-generation endpoint returns and descends to
  `candidates[0].content.parts[0].text`. It strips the Markdown code fence
  around the embedded answer and parses it. Then it builds a recommendation:
  a summary from up to four `analysis` fields, and three lists
  (improvements, workout suggestions, safety points). Each list falls back
  to a canned placeholder when it would be empty. Any failure along the way
  yields a complete fallback recommendation.
- **The user service** (`UserService`) covers registration with an
  email-uniqueness check and a password-free profile projection.
- **The activity service** (`ActivityService`) validates the user,
  persists the activity, and publishes the saved record to the
  recommendation pipeline. A publish failure is swallowed. It also handles
  listing and lookup by id.
- **The queue consumer** (`ActivityMessageListener`) saves one
  recommendation per activity message.

The Jackson tree is the datatype `JsonNode.Json`. Its `path`, `get`,
`isArray`, `isMissingNode` and `asText` are small functions that follow
Jackson's behaviour:

- `path` on a non-object or a missing field gives `Missing`.
- `get(i)` on a non-array or out of range gives Java null, modelled as `None`.
- `asText` gives the text of a string node and `"null"` for a JSON null. It
  gives `""` for containers and MissingNode.

`readTree` is a parameter of type `string -> Option<Json>`. `None` stands for
a parse exception or a null tree. Every branch of the post-processor is a
pure function of that parser and the reply text.

The user table is a `map` from id to row. The activity collection is the
sequence of rows in the repository's iteration order, because
`getActivity` returns rows in that order. Ids and timestamps come from the
database. They are parameters (`newId`, `now`), with `newId` required to be
unused. User validation and the broker are oracles. `validateUser` is a
`string -> bool`. `publish` is an `Activity -> bool`, where `false` means
the send threw.

Java's `String.trim()` drops code units at or below U+0020 at both ends.
`replaceAll` with the two fence patterns is literal, leftmost and
non-overlapping: it deletes each match and does not rescan. `JavaString`
spells out both.

The model follows the code in these details:

- A list placeholder is also used when the node is present but is not an
  array.
- The invalid-user error text is `"Invalid user ID: " + userId`.
- A JSON `null` analysis field counts as present and renders as `null`.

## Model

| member | source | states |
|---|---|---|
| `ActivityAIService.ProcessAiResponse` | aiservice/src/main/java/com/fitness/aiservice/service/ActivityAIService.java:30-73 | Total. Every result copies the activity's id, user and type and has three non-empty lists. When the answer document cannot be reached, the result is exactly the fallback. Its text is the fallback text if and only if that happened, so a parsed reply never passes for the fallback. When the answer document `doc` is reached, the recommendation is the summary of `doc.analysis` and the three lists are the extractions of `doc.improvements`, `doc.suggestions` and `doc.safety`. |
| `ActivityAIService.DefaultRecommendation` | aiservice/src/main/java/com/fitness/aiservice/service/ActivityAIService.java:75-86 | The fallback copies the activity's identity and uses the fixed text with one-element lists. Its improvements list differs from what an empty improvements array yields. |
| `ActivityAIService.FailuresFallBack` | aiservice/src/main/java/com/fitness/aiservice/service/ActivityAIService.java:34-71 | Four cases give the fallback: an unparseable reply, an envelope whose `candidates` has no element 0, a candidate whose `content.parts` has no element 0 (in both of these `get` returns null), and an unparseable unfenced text. |
| `ActivityAIService.ExtractImprovements` | aiservice/src/main/java/com/fitness/aiservice/service/ActivityAIService.java:108-118 | Never empty. For a non-array or empty array the result is exactly the "No specific improvements suggested." singleton. Otherwise it has one line per element, in order, with line i equal to `area_i + ": " + recommendation_i`. |
| `ActivityAIService.ExtractSuggestions` | aiservice/src/main/java/com/fitness/aiservice/service/ActivityAIService.java:96-106 | Same shape with `workout: description` and the "No specific workout suggestions provided." placeholder. |
| `ActivityAIService.ExtractSafety` | aiservice/src/main/java/com/fitness/aiservice/service/ActivityAIService.java:88-94 | Same shape with each element's text and the "No specific safety guidelines provided." placeholder. |
| `ActivityAIService.LabelEach` | aiservice/src/main/java/com/fitness/aiservice/service/ActivityAIService.java:111-115 | The forEach-and-add loop keeps length and order. Element i is the formatted pair of array element i. |
| `ActivityAIService.TextOfEach` | aiservice/src/main/java/com/fitness/aiservice/service/ActivityAIService.java:91 | The forEach keeps length and order. Element i is `asText` of array element i. |
| `ActivityAIService.Section` | aiservice/src/main/java/com/fitness/aiservice/service/ActivityAIService.java:120-124 | A section is appended if and only if the key is not a missing node; an explicit JSON null counts as present. An appended section starts with `prefix + " "` and ends with a newline. |
| `ActivityAIService.SummaryBuffer` | aiservice/src/main/java/com/fitness/aiservice/service/ActivityAIService.java:47-52 | The builder stays empty if and only if none of the four keys is present (a missing or non-object `analysis` included). Otherwise it starts with the first letter of a section prefix and ends with a newline. |
| `ActivityAIService.Summary` | aiservice/src/main/java/com/fitness/aiservice/service/ActivityAIService.java:62 | After the trim, the summary is still empty if and only if no key is present, and a non-empty summary still starts with a prefix letter. |
| `ActivityAIService.PresentLines` | aiservice/src/main/java/com/fitness/aiservice/service/ActivityAIService.java:49-52 | One line per key the analysis has, never more than four, and none if and only if no key is present. The lines are read from the key table `overall`, `pace`, `heartRate`, `caloriesBurned` in that order. |
| `ActivityAIService.LinesOf` | aiservice/src/main/java/com/fitness/aiservice/service/ActivityAIService.java:120-124 | For any key table: never more lines than keys, and no line if and only if every key of the table is missing. |
| `ActivityAIService.BufferIsTerminatedLines` | aiservice/src/main/java/com/fitness/aiservice/service/ActivityAIService.java:47-52 | For any analysis, full or partial, the builder holds exactly the present lines in key order, each followed by a newline. |
| `ActivityAIService.SummaryOfPresentLines` | aiservice/src/main/java/com/fitness/aiservice/service/ActivityAIService.java:47-62 | For any analysis, full or partial, the summary is the present lines in key order joined by newlines. This needs the last present value's text to be non-empty and not to end in a character at or below U+0020, because `trim()` would cut that text too. |
| `ActivityAIService.SummaryOfFullAnalysis` | aiservice/src/main/java/com/fitness/aiservice/service/ActivityAIService.java:47-52 | Suppose all four keys are present as strings and the calories text is non-empty and does not end in whitespace. Then the summary is the four `Prefix value` lines in the fixed order overall, pace, heartRate, caloriesBurned. The trim removes only the final newline. |
| `ActivityAIService.SummaryIsNeverFallbackText` | aiservice/src/main/java/com/fitness/aiservice/service/ActivityAIService.java:62 | No analysis object produces the fallback's recommendation text. |
| `ActivityAIService.AnswerWithoutAnalysis` | aiservice/src/main/java/com/fitness/aiservice/service/ActivityAIService.java:47-62 | A parsed answer with no analysis fields gives the summary `""`, and the recommendation is not the fallback. |
| `ActivityAIService.AnswerWithoutSafety` | aiservice/src/main/java/com/fitness/aiservice/service/ActivityAIService.java:56 | A parsed answer object without `safety` gives the safety placeholder singleton. |
| `ActivityAIService.FenceRoundTrip` | aiservice/src/main/java/com/fitness/aiservice/service/ActivityAIService.java:39-42 | Fence stripping returns exactly `body` for ```` "```json\n" + body + "\n```" ```` when `body` meets three conditions: it contains neither delimiter, it has no surrounding whitespace, and it does not end with ```` ```json ````. |
| `ActivityAIService.FenceRoundTripNeedsEndCondition` | aiservice/src/main/java/com/fitness/aiservice/service/ActivityAIService.java:40-41 | The body ```` x```json ```` contains neither delimiter and is trimmed, yet stripping its fenced form gives ```` x``` ````. The end condition above is therefore needed. |
| `ActivityAIService.FencedAnswerIsUsed` | aiservice/src/main/java/com/fitness/aiservice/service/ActivityAIService.java:36-65 | Take any envelope whose `candidates[0].content.parts[0].text` is ```` "```json\n" + body + "\n```" ````, with `body` meeting the round-trip conditions and parsing to `doc`. It is processed into the recommendation built from `doc`. |
| `ActivityAIService.StripFences` | aiservice/src/main/java/com/fitness/aiservice/service/ActivityAIService.java:39-42 | The result is never longer than the text and has no surrounding whitespace. Text containing neither delimiter is only trimmed. |
| `ActivityAIService.ReplyTextNode` | aiservice/src/main/java/com/fitness/aiservice/service/ActivityAIService.java:36-37 | The `text` node is reached if and only if `candidates` is a non-empty array whose element 0 is an object with an object `content` holding a non-empty array `parts`. In that case it is `parts[0].path("text")`. In every other case `get(0)` returns null and the chain throws. |
| `ActivityAIService.AnswerDocument` | aiservice/src/main/java/com/fitness/aiservice/service/ActivityAIService.java:36-46 | An unparseable reply or an unreachable text node gives no document. Otherwise the document is the parse of the fence-stripped `asText` of the text node. |
| `ActivityAIService.FromDocument` | aiservice/src/main/java/com/fitness/aiservice/service/ActivityAIService.java:58-67 | The recommendation built from a parsed answer copies the activity's id, user and type, has three non-empty lists, and its text is never the fallback text. |
| `JavaString.TrimStart` | aiservice/src/main/java/com/fitness/aiservice/service/ActivityAIService.java:42 | The result is the suffix that starts at the first non-whitespace character. Everything dropped is whitespace. |
| `JavaString.TrimEnd` | aiservice/src/main/java/com/fitness/aiservice/service/ActivityAIService.java:42 | The result is the prefix that ends at the last non-whitespace character. Everything dropped is whitespace. |
| `JavaString.Trim` | aiservice/src/main/java/com/fitness/aiservice/service/ActivityAIService.java:42 | The result is a contiguous slice of the text that starts and ends with a character above U+0020, and every character outside it is at or below U+0020. |
| `JavaString.TrimIdempotent` | aiservice/src/main/java/com/fitness/aiservice/service/ActivityAIService.java:62 | Trimming twice is trimming once. |
| `JavaString.RemoveAllKeepsPrefix` | aiservice/src/main/java/com/fitness/aiservice/service/ActivityAIService.java:40 | A leading part in which no match starts survives the removal unchanged. |
| `JavaString.RemoveAllAbsent` | aiservice/src/main/java/com/fitness/aiservice/service/ActivityAIService.java:41 | Text without the pattern is left unchanged. |
| `UserService.Register` | userservice/src/main/java/com/fitness/userservice/service/UserService.java:16-38 | A taken email gives "Email already exists" and the store is unchanged. Otherwise exactly one row is added under the new id, every other row stays the same, and the row carries the request's email, password and names. The returned projection has the id, email and names, and its role is null. |
| `UserService.GetUserProfile` | userservice/src/main/java/com/fitness/userservice/service/UserService.java:41-55 | Fails with "User not found" if and only if the id is absent. Otherwise it returns exactly that row's id, email, first and last name and timestamps, with a null role. |
| `UserService.ToResponse` | userservice/src/main/java/com/fitness/userservice/service/UserService.java:29-37 | The projection loses only the password: putting the password back gives the stored row. The role is left null. |
| `UserService.ProjectionHidesOnlyPassword` | userservice/src/main/java/com/fitness/userservice/dto/UserResponse.java:6-14 | Two users have the same projection if and only if they differ at most in their passwords. |
| `UserService.ProfileAfterRegister` | userservice/src/main/java/com/fitness/userservice/service/UserService.java:29-52 | Looking up a just-registered id returns the projection that registration returned. |
| `UserService.RegisterPreservesInvariants` | userservice/src/main/java/com/fitness/userservice/service/UserService.java:18-28 | Registration keeps rows under their own ids and emails unique. |
| `UserService.SecondRegistrationRefused` | userservice/src/main/java/com/fitness/userservice/service/UserService.java:18-20 | Registering an already registered email again is refused and changes nothing. |
| `ActivityService.TrackActivity` | activityservice/src/main/java/com/fitness/activityservice/service/ActivityService.java:31-58 | An invalid user gives "Invalid user ID: " + id with nothing stored and nothing sent. Otherwise one row carrying every request field is appended under the new id. The response reads back as that row. The saved row is sent exactly when the broker accepts it. |
| `ActivityService.PublishFailureIsInvisible` | activityservice/src/main/java/com/fitness/activityservice/service/ActivityService.java:50-56 | The store and the response are the same whether the publish succeeds or throws. |
| `ActivityService.ToResponse` | activityservice/src/main/java/com/fitness/activityservice/service/ActivityService.java:60-72 | The projection is lossless: all nine fields read back as the original row. |
| `ActivityService.OfUser` | activityservice/src/main/java/com/fitness/activityservice/service/ActivityService.java:75 | A row belongs to the result if and only if it is a stored row of that user. The result is never longer than the store. |
| `ActivityService.Responses` | activityservice/src/main/java/com/fitness/activityservice/service/ActivityService.java:76-78 | The map to responses keeps length and order. Element i reads back as row i. |
| `ActivityService.GetActivity` | activityservice/src/main/java/com/fitness/activityservice/service/ActivityService.java:74-79 | Returns the response map of the user's rows, in store order: one projection per stored row of the user, each reading back as that row. |
| `ActivityService.FindById` | activityservice/src/main/java/com/fitness/activityservice/service/ActivityService.java:82-83 | Finds nothing if and only if no row has the id. What it finds is a stored row with that id. |
| `ActivityService.GetActivityById` | activityservice/src/main/java/com/fitness/activityservice/service/ActivityService.java:81-85 | Fails with "Activity not found with id: " + id if and only if the id is absent. Otherwise it returns the projection of a stored row with that id. |
| `ActivityService.GetByIdFindsTheRow` | activityservice/src/main/java/com/fitness/activityservice/service/ActivityService.java:81-85 | With distinct ids, looking up row k's id returns row k's projection. |
| `ActivityService.TrackPreservesDistinctIds` | activityservice/src/main/java/com/fitness/activityservice/service/ActivityService.java:39-47 | Tracking keeps row ids distinct. |
| `ActivityService.GetAfterTrack` | activityservice/src/main/java/com/fitness/activityservice/service/ActivityService.java:47-56 | A just-tracked activity looked up by its id gives the response that tracking returned. |
| `ActivityService.ListAfterTrack` | activityservice/src/main/java/com/fitness/activityservice/service/ActivityService.java:74-79 | Tracking appends the new row to its user's list and leaves every other user's list unchanged. |
| `ActivityMessageListener.ProcessActivity` | aiservice/src/main/java/com/fitness/aiservice/service/ActivityMessageListener.java:20-26 | Each message appends exactly one recommendation, whatever the answer. That recommendation carries the message's activity id, user and type. |
| `ActivityMessageListener.AsMessage` | activityservice/src/main/java/com/fitness/activityservice/service/ActivityService.java:51 | The message sent for a saved activity loses nothing: reading it back gives the saved activity, its type name included. |
| `ActivityMessageListener.TrackedActivityGetsRecommendation` | activityservice/src/main/java/com/fitness/activityservice/service/ActivityService.java:47-54 | For a valid user and an accepting broker, exactly one message is sent. Consuming it saves one recommendation with the tracked id, the request's user and the request's type name. |

## Left out

- Text-to-tree parsing (`ObjectMapper.readTree`) is a foreign library. It is the `readTree` parameter, and nothing is assumed about it.
- Jackson's rendering of numbers by `asText` is not modelled. A number node carries the text it renders as.
- JSON objects are maps, so a duplicate key in the reply is not modelled. Jackson keeps the last value for a duplicate key.
- The prompt text (`createPromptForActivity`) is plain string formatting with no behaviour worth proving.
- The HTTP call to the text-generation endpoint (`GeminiService`) is network I/O. Its answer is a parameter of the listener. A failure of that call propagates out of the consumer and is not modelled.
- `generateRecommendation` only chains prompt, call and `processAiResponse`.
- The `createdAt = now()` stamps of recommendations come from a clock. Persistence timestamps are the `now` parameter.
- Logging, bean validation annotations, the HTTP controller, the gateway's security configuration and the repository interfaces are framework configuration with no logic of their own.
- `UserValidationService`, the RabbitMQ template and its exchange and routing key are external services. They are oracles here, and an exception thrown by the validation call is not modelled.
- The Java declarations of `User`, `RegisterRequest`, `ActivityRequest`, the activity-service `Activity` and `ActivityResponse` are not cited. The datatypes that model them take their fields from the builder and setter calls in the two services.
- Java nulls in record fields and boxed `Integer` values are not modelled. The services only copy those fields.
- Exception classes are not distinguished (`IllegalArgumentException` for a taken email, `RuntimeException` elsewhere). Failures carry the exception's message.
- `UserService.Register`: `String.valueOf` rendering of timestamps in the user projection is not modelled. The projection carries the timestamps themselves.
- `UserService.Register`: requires `newId` to be absent from the store, standing for the database's id generation. Emails are compared exactly, with no database collation.
- `ActivityService.TrackActivity`: requires `newId` to be unused, standing for the database's id generation. Insertion order is taken as the repository's iteration order.
- `ActivityAIService.FenceRoundTrip`: also requires that the body not end with ```` ```json ````. Without that condition the round trip fails (see `FenceRoundTripNeedsEndCondition`). A body that is exactly one JSON value never ends that way.
- The publish-then-consume pipeline assumes the message converter writes the enum's name and reads the record back field for field. Its configuration is not part of this model.
