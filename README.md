# SmartGate access core in Dafny

SmartGate is a gate controller for a residential car park. A camera thread reads frames and
finds a licence plate with two YOLO models and EasyOCR. It looks the plate up in the vehicle
registry and decides on access. Detections go through a queue and are broadcast to the
WebSocket clients of the auto-access router. A React component keeps a bounded history and
allow/deny counters. Next to this path are:

- the parking-access check (latest payment, tenant tariff, expiry in whole days);
- the authentication gates (body bounds, Bearer header, active user, administrator role, the
  password-hash diagnostic);
- two small helpers: schema-qualified table names, and the connection-URL diagnostic.

This project models that logic and proves properties of the model. The modules follow the
source files:

| module | file | models |
|---|---|---|
| `Wrappers` | `wrappers.dfy` | `Option`, `Result`, and `Field` (a dictionary or row field that is missing, NULL or present) |
| `PyStr` | `py_str.dfy` | the Python `str` operations used: ASCII `isdigit`/`isalpha`/`upper`/`lower`, `replace`, `startswith`, `split`, `join` |
| `Detector` | `detector.dfy` | `backend/camera/detector.py`: the plate format, the look-alike correction, `_read_plate` selection, `detect_plate_from_frame` |
| `Camera` | `camera_service.dfy` | `backend/camera/camera_service.py`: the class `CameraService`, the record-to-decision mapping, the device probe order |
| `AutoAccess` | `auto_access.dfy` | `backend/routers/auto_access.py`: environment flags, the subscriber list and broadcast, the detection queue, stream chunks, status |
| `Cocheras` | `cocheras.dfy` | `backend/routers/cocheras.py`: `verificar_acceso_cochera` and the no-department branch of `historial_pagos` |
| `Auth` | `auth.dfy` | `backend/routers/auth.py`: request bodies, `_require_bearer`, the user and admin gates, `login`, `test_user` |
| `AutoAccessView` | `auto_access_view.dfy` | `frontend/src/components/AutoAccess.js`: the message filter, `handleDetection`, `closeAlert` |
| `DbHelpers` | `db_helpers.dfy` | `backend/db_helpers.py`: `table_name` |
| `ConnectionCheck` | `connection_check.dfy` | `backend/test_connection.py`: host and database name of the URL, the case-insensitive table lookup |

Whatever the core receives from outside is a parameter of the model:

- Model outputs: the YOLO boxes, and the OCR readings of each crop, one sequence per preprocessing variant.
- Query results: the registry record, payments, tenant and tariff rows, user rows.
- Token and password checks: `verifyToken`, `authenticate`, `issue`.
- Socket sends: `sendOk(socket, text)`, false when the send raises.
- Device opening: `opens(index, backend)` and `urlOpens(url)`.
- JPEG encoding: `encode`.
- `JSON.parse` in the client: `parse`.
- The clock: `now`, and "today" as an integer day number.

Scores are reals and box coordinates are natural numbers. Character classes and case mapping
are ASCII only.

The stateful parts are classes:

- `Camera.CameraService` has the fields `is_running`, `last_detection_time`,
  `last_plate_overlay`, `current_frame` and the callback flag.
- `AutoAccess.Subscribers` holds `active_connections` as a sequence.
- `AutoAccess.DetectionQueue` is a sequential FIFO.
- `AutoAccessView.AutoAccessView` holds the component state.

The loops of the source are methods, each proved against a specification function:

- `Detector.FormatLicense`, `Detector.ReadPlate`, `Detector.CollectVehicleBoxes`,
  `Detector.DetectPlateFromFrame`;
- `Camera.CameraService.TryIndices`, `Camera.CameraService.OpenCapture`;
- `AutoAccess.Subscribers.Broadcast`, `Auth.TestUser`.

Where the code and a comment disagree, the model follows the code:

- `_get_vehicle_data` grants access only for `estado == 1`. Its doc-comment, and
  `tiene_permiso` in `backend/db.py:35`, treat 0 as permitted.
- The YOLO vehicle classes are {2, 3, 5, 7}.
- The correction table is kept exactly as written, asymmetric and not injective.

## Model

| member | source | states |
|---|---|---|
| Detector.LengthMismatchRejected | backend/camera/detector.py:11-14 | a text whose length is not 7 never complies |
| Detector.CompliesFormatCharacterised | backend/camera/detector.py:15-25 | a 7-character text complies iff positions 2-4 hold a digit or one of O,I,J,B,S and positions 0,1,5,6 hold a letter or one of 0,1,3,8,5 |
| Detector.FormatLicense | backend/camera/detector.py:28-38 | the character loop computes exactly the positional correction `Formatted` |
| Detector.CorrectedTable | backend/camera/detector.py:28-38 | the correction table position by position: O→0, I→1, J→3, B→8, S→5 in digit slots; 0→O, 1→I, 3→B, 8→B, 5→S in letter slots; anything else unchanged |
| Detector.FormattedChangesOnlyLookAlikes | backend/camera/detector.py:28-38 | the correction keeps the length and changes a character only if it is a key of that position's table |
| Detector.CorrectionIsAsymmetric | backend/camera/detector.py:30-31 | '3' and '8' both become 'B' in letter slots. 'J' stays 'J' there but becomes '3' in digit slots. Two different plates correct to the same text |
| Detector.CorrectedIdempotent | backend/camera/detector.py:28-38 | correcting a corrected character changes nothing |
| Detector.FormattedIdempotent | backend/camera/detector.py:33-38 | the correction is idempotent |
| Detector.CanonicalUnchanged | backend/camera/detector.py:33-38 | letters at 0,1,5,6 and digits at 2,3,4 are returned unchanged |
| Detector.CorrectionCanonicalises | backend/camera/detector.py:11-38 | a complying text corrects to the canonical layout, and to upper-case plate text when it has no lower-case letter; every canonical text complies |
| Detector.ReadPlate | backend/camera/detector.py:75-84 | scanning the variants in order yields `BestReading` of their concatenation |
| Detector.BestReadingSnoc | backend/camera/detector.py:76-83 | one more OCR reading changes the best reading exactly as one step of the inner loop does |
| Detector.BestReadingIsScan | backend/camera/detector.py:78-83 | the selection equals a scan over graded readings (complies, corrected text, score) |
| Detector.BestReadingIsFirstMaximum | backend/camera/detector.py:75-84 | no result iff no reading is eligible (complies and score > 0). Otherwise the result is the corrected text and score of the first eligible reading whose score is strictly greater than all before it and at least all after it |
| Detector.ReadingIsPlateText | backend/camera/detector.py:79-84 | a returned reading has 7 characters, ASCII digits at 2-4 and upper-case letters elsewhere, and a score > 0 |
| Detector.NormalizeHasNoLowerCase | backend/camera/detector.py:79 | `upper().replace(' ', '')` leaves no lower-case letter |
| Detector.CollectVehicleBoxes | backend/camera/detector.py:89-92 | the loop keeps, in order, the boxes of classes {2,3,5,7} |
| Detector.VehicleBoxesAreTheVehicleClasses | backend/camera/detector.py:90-92 | a box is kept iff some YOLO box of a vehicle class has those coordinates |
| Detector.ContainedInSomeVehicle | backend/camera/detector.py:108-112 | the containment loop answers true iff some vehicle box contains the plate box on all four sides |
| Detector.PaddedCropWithinFrame | backend/camera/detector.py:102-105 | the 4-pixel padded crop of a non-empty crop is non-empty, stays within [0,H]×[0,W] and covers the plate box clipped to the frame |
| Detector.AdmissionRule | backend/camera/detector.py:98-114 | with vehicles present a plate is kept iff its crop is non-empty and some vehicle contains it; with none, iff its crop is non-empty |
| Detector.ContainmentExamples | backend/camera/detector.py:107-114 | a plate inside a vehicle is kept, one half outside it is dropped, and without vehicles it is kept |
| Detector.BestOfIsFirstMaximum | backend/camera/detector.py:117-123 | the best plate is the first candidate whose score strictly beats every earlier one and is at least every later one; none iff no candidate was read |
| Detector.DetectPlateFromFrame | backend/camera/detector.py:86-127 | the method computes the thresholded best detection over the kept vehicle boxes |
| Detector.DetectionIsAccepted | backend/camera/detector.py:117-127 | a returned detection has text score ≥ 0.4, upper-case canonical text, and the box and box score of an admitted plate box; a best detection scoring below 0.4 is dropped |
| Detector.NormalizeOfPlainPlate | backend/camera/detector.py:79-81 | a canonical plate passes normalisation, the format check and the correction unchanged |
| Detector.PipelineScenario | backend/camera/detector.py:86-127 | one vehicle and one plate inside it: the result is the reading with the plate box when its score is ≥ 0.4, and none below |
| Camera.VehicleDataFor | backend/camera/camera_service.py:185-204 | no record gives no data. Otherwise: the plate, the time `now`, confidence 0.95, `acceso` iff estado (default 0) is 1, a reason exactly when denied, no expiry fields |
| Camera.EstadoOneIsTheOnlyGrant | backend/camera/camera_service.py:185-189 | only a present estado 1 grants; a missing or zero estado is denied with the fixed reason, contrary to the doc-comment |
| Camera.BackendOrder | backend/camera/camera_service.py:104-109 | DirectShow if available, then Media Foundation if available, then the default backend, which is always last |
| Camera.FallbackShape | backend/camera/camera_service.py:99-102 | the fallback indices are ascending and free of duplicates: exactly 0..n-1 without the requested one |
| Camera.ProbeStep | backend/camera/camera_service.py:100-102 | at step n (n < 4), n is already listed iff it is the requested index; so the loop appends n exactly when it is new |
| Camera.ProbeIndicesShape | backend/camera/camera_service.py:91-102 | the probe list starts with the requested index, has no duplicates and 4 or 5 entries, is 0,1,2,3 when nothing is requested, and holds exactly 0..3 and the requested index |
| Camera.NothingRequested | backend/camera/camera_service.py:97-102 | a camera id that is not an int and does not parse probes 0,1,2,3 |
| Camera.CameraService.constructor | backend/camera/camera_service.py:25-34 | a new service is stopped, with no frame, callback, detection or overlay, and a cooldown of 3 |
| Camera.CameraService.SetDetectionCallback | backend/camera/camera_service.py:36-38 | a callback is set and nothing else changes |
| Camera.CameraService.StartBackgroundCapture | backend/camera/camera_service.py:40-45 | `is_running` becomes true and nothing else changes |
| Camera.CameraService.StopCapture | backend/camera/camera_service.py:47-52 | `is_running` becomes false and nothing else changes |
| Camera.CameraService.ProcessFrame | backend/camera/camera_service.py:125-147 | Without a detector, or within the cooldown since the last detection (0 if none), nothing is called and nothing changes. Non-empty text overwrites the overlay with text, box and time, registered or not. The callback fires, and the detection time advances, only when a record exists and a callback is set |
| Camera.CameraService.CaptureStep | backend/camera/camera_service.py:62-74 | a failed read changes nothing; a frame read becomes the current frame and is processed as `ProcessFrame` states: no detector or an active cooldown fires nothing, otherwise a non-empty plate sets the overlay and, with a callback, fires the registry's record and restarts the cooldown |
| Camera.CameraService.LastPlateForOverlay | backend/camera/camera_service.py:214-220 | the overlay is returned iff it exists and is at most `maxAge` old (inclusive); otherwise none; it reads the state only |
| Camera.CameraService.TryIndices | backend/camera/camera_service.py:91-102 | the index loop builds exactly the probe list |
| Camera.CameraService.OpenCapture | backend/camera/camera_service.py:76-123 | A non-empty URL that opens wins. Otherwise the result is the first (index, backend) pair, index-major, that opens, and no earlier pair opens. No result means no pair opens |
| Camera.NextIndexClosed | backend/camera/camera_service.py:111-112 | exhausting every backend of an index moves the "none opened yet" frontier to the next index |
| Camera.OnlyIndicesBefore | backend/camera/camera_service.py:111-123 | exhausting every index means no pair opens |
| Camera.CooldownScenario | backend/camera/camera_service.py:125-147 | A registered plate fires at t=10. A frame at t=11 is inside the cooldown and is not processed. The overlay is shown at t=12 and gone at t=14 |
| AutoAccess.FlagsIgnoreCase | backend/routers/auto_access.py:31-46 | unset ENABLE_CAMERA and DETECTIONS_LOG are off; the flags ignore letter case, and both flags accept the same words |
| AutoAccess.FlagExamples | backend/routers/auto_access.py:46 | "TRUE", "On", "1" enable the camera; "0", "" and "enabled" do not |
| AutoAccess.Dumps | backend/routers/auto_access.py:216 | `json.dumps` succeeds iff no `datetime` occurs in the value, and then encodes that value |
| AutoAccess.DetectionMessageNeverSerializes | backend/routers/auto_access.py:208-216 | the detection message as built, with the `datetime` timestamp of the record, never serializes |
| AutoAccess.PortableMessageSerializes | backend/routers/auto_access.py:208-216 | the same message with the timestamp as a number always serializes |
| AutoAccess.RemoveFirstShrinks | backend/routers/auto_access.py:219 | `list.remove` drops one occurrence and invents nothing |
| AutoAccess.RemoveFirstNoDup | backend/routers/auto_access.py:219 | removal keeps a duplicate-free list duplicate-free |
| AutoAccess.BroadcastKeepsDeliveredInOrder | backend/routers/auto_access.py:214-219 | The sockets visited are distinct subscribers. The list afterwards is the original list, in order, minus exactly the visited sockets whose send failed |
| AutoAccess.BroadcastSkipsAfterRemoval | backend/routers/auto_access.py:214-219 | with subscribers a, b, c and only a failing, b is never visited yet stays subscribed |
| AutoAccess.BroadcastOfUnserializable | backend/routers/auto_access.py:214-219 | for any list, when the message does not serialize, half of the subscribers from the iterator position on, rounded up, are tried, and each tried one is removed |
| AutoAccess.UnserializableShape | backend/routers/auto_access.py:214-219 | on a duplicate-free list, an unserializable message means the loop tries exactly the sockets at even offsets from the iterator position, and keeps the earlier ones and those at odd offsets |
| AutoAccess.UnserializableTriesEveryOther | backend/routers/auto_access.py:214-219 | position by position: the k-th socket tried is `conns[i + 2k]`; the list keeps `conns[..i]` and then `conns[i + 2k + 1]`, none of which is ever tried |
| AutoAccess.BroadcastAll | backend/routers/auto_access.py:214-219 | iterating over a copy: every subscriber is tried, in order, and exactly those whose send fails are removed |
| AutoAccess.Subscribers.constructor | backend/routers/auto_access.py:55-59 | the subscriber list starts empty |
| AutoAccess.Subscribers.Connect | backend/routers/auto_access.py:58-59 | the socket is appended at the end; a new socket keeps the list free of duplicates (`Valid`) |
| AutoAccess.Subscribers.Disconnect | backend/routers/auto_access.py:65-66 | the first occurrence is removed, and removal reports whether it was there; afterwards the socket is no longer listed and the list stays duplicate-free |
| AutoAccess.Subscribers.Broadcast | backend/routers/auto_access.py:206-219 | the loop over the live list visits and leaves exactly what the iterator model `BroadcastFrom` describes |
| AutoAccess.Subscribers.BroadcastSnapshot | backend/routers/auto_access.py:206-219 | the corrected loop over a copy ends as `BroadcastAll` |
| AutoAccess.DetectionQueue.Put | backend/routers/auto_access.py:35 | the record is appended at the back |
| AutoAccess.DetectionQueue.Get | backend/routers/auto_access.py:226-229 | an empty queue yields nothing and stays empty (the timeout); otherwise the front record is returned and removed |
| AutoAccess.QueueIsFifo | backend/routers/auto_access.py:222-229 | two records come out in the order they went in, then nothing |
| AutoAccess.LogLine | backend/routers/auto_access.py:32 | the log line is the detection marker and the plate, followed by "PERMITIDO" exactly when access is granted and by "DENEGADO" otherwise |
| AutoAccess.DetectionCallback | backend/routers/auto_access.py:29-35 | each record is enqueued once, and logged iff DETECTIONS_LOG is on |
| AutoAccess.DispatchOnce | backend/routers/auto_access.py:222-229 | An empty queue changes nothing. Otherwise the front record is removed and broadcast once, as the code does it |
| AutoAccess.DispatchCorrected | backend/routers/auto_access.py:206-229 | with both corrections, the front record is removed and every subscriber is sent its message; exactly those whose send fails are removed |
| AutoAccess.Chunk | backend/routers/auto_access.py:90-95 | a chunk's length is the part header plus the payload plus CRLF |
| AutoAccess.ChunkRoundTrip | backend/routers/auto_access.py:90-95 | framing and parsing a chunk are inverse in both directions |
| AutoAccess.ChunkStartsWithDelimiter | backend/routers/auto_access.py:90-91 | every chunk opens with the delimiter line `--frame` CRLF (section 5.1.1 of RFC 2046) |
| AutoAccess.DrawingOf | backend/routers/auto_access.py:79-83 | a missing box draws at [0,0,0,0]; the label anchors at (x1, max(0, y1-10)) and is drawn only for non-empty text |
| AutoAccess.StreamChunk | backend/routers/auto_access.py:71-95 | with no service or no frame the payload is empty; otherwise it is the encoding of the current frame with the drawing of the fresh overlay, if any |
| AutoAccess.GetCameraStatus | backend/routers/auto_access.py:99-108 | no service gives "not_initialized"; otherwise "running" iff running (else "stopped"), with camera id and last detection passed through |
| AutoAccess.StatusFollowsStartStop | backend/routers/auto_access.py:185-203 | a fresh service reports stopped, then running after start, then stopped after stop |
| Cocheras.LatestPaymentIsLatest | backend/routers/cocheras.py:29-34 | no payment iff the list is empty; otherwise the row taken is one of the payments and none sorts after it |
| Cocheras.TermDays | backend/routers/cocheras.py:52-57 | a tariff adds 30 days exactly when its lower-cased description is "mensual", 365 exactly when it is "anual", and 0 otherwise |
| Cocheras.TermDaysIgnoresCase | backend/routers/cocheras.py:52-57 | for every description, the term is unchanged by lower- or upper-casing it |
| Cocheras.TermDaysExamples | backend/routers/cocheras.py:52-57 | "mensual" and "MENSUAL" add 30, "Anual" adds 365, "semanal" and the empty description add nothing |
| Cocheras.DenialsInOrder | backend/routers/cocheras.py:21-39 | a missing vehicle or department is denied first (and only then with that reason); then no payment; then no tenant tariff |
| Cocheras.AccessIffPaidAfterToday | backend/routers/cocheras.py:58-84 | Access is granted iff the paid-until day is after today, with remaining days and expiry reported; expiring today is denied. Only an expiry denial marks the vehicle denied, and only when the UPDATE succeeds |
| Cocheras.AccessMonotoneInTime | backend/routers/cocheras.py:58-84 | a grant today is a grant on every earlier day; an expiry today is an expiry on every later day |
| Cocheras.HistorialPagos | backend/routers/cocheras.py:106-129 | without a vehicle department the list is empty and carries the reason; otherwise every payment of the department is listed |
| Cocheras.HistoryAgreesWithAccess | backend/routers/cocheras.py:117-120 | the history and the access check agree on which vehicles have no department |
| Auth.ValidateUserCreate | backend/routers/auth.py:26-30 | a body is accepted iff username 3-64, password 8-128, nombre 1-120 and rol absent or exactly "ope"/"admin"; rol defaults to "ope"; rejection is a 422 |
| Auth.PasswordBoundsDiffer | backend/routers/auth.py:22-30 | a 4-character password is valid for login but too short for a new user; a role "Admin" is rejected |
| Auth.RequireBearer | backend/routers/auth.py:61-66 | missing or empty credentials give 401 "Falta el token" before the scheme is looked at; a scheme other than "bearer" in any case gives 401; otherwise the token is returned unchanged |
| Auth.BearerSchemeIgnoresCase | backend/routers/auth.py:64 | the scheme is compared case-insensitively (section 2.1 of RFC 7235) |
| Auth.GetCurrentUser | backend/routers/auth.py:69-81 | header errors pass through; success iff the token verifies, the user exists and is not explicitly inactive, returning that user; every failure is a 401 |
| Auth.OnlyExplicitFalseIsInactive | backend/routers/auth.py:78-80 | a NULL or missing `activo` passes; only false is refused, with the inactive message |
| Auth.GetCurrentAdmin | backend/routers/auth.py:84-90 | 403 iff the role is not "admin"; otherwise the user is returned unchanged; user-gate errors pass through |
| Auth.Login | backend/routers/auth.py:93-119 | bad bodies give 422, bad credentials and an inactive user 401; a token names the authenticated user with type "bearer" |
| Auth.LastLoginNeverBlocks | backend/routers/auth.py:103-118 | a failing `update_last_login` never changes the outcome; login succeeds iff the body is valid and the user exists, is active and has a usable `primer_login` |
| Auth.Truncated | backend/routers/auth.py:179-180 | a text hash over 30 characters becomes its first 30 plus "..." (33 in all); anything else is unchanged |
| Auth.TruncatedIdempotent | backend/routers/auth.py:179-180 | truncating twice is truncating once |
| Auth.TestUser | backend/routers/auth.py:162-210 | The outcomes are not found, failure, or found. A found user is reported with its truncated hash. `hash_valid` holds iff the hash starts with "$2b$" or "$2a$". The inactivity problem is listed iff activo is false, the bcrypt problem iff the hash is invalid, and a fix only then |
| Auth.DiagnosticScenario | backend/routers/auth.py:188-210 | a row without `activo` and with a NULL hash shows false with no inactivity problem, length 0, and the bcrypt problem and fix |
| AutoAccessView.IndexedSpread | frontend/src/components/AutoAccess.js:55-59 | spreading an array into an object keys each element by its index |
| AutoAccessView.DetectionOfFields | frontend/src/components/AutoAccess.js:55-59 | the stored detection has the client id and timestamp |
| AutoAccessView.ServerFieldsKept | frontend/src/components/AutoAccess.js:55-59 | every other server field is kept |
| AutoAccessView.NextHistory | frontend/src/components/AutoAccess.js:62 | the new detection heads the history, followed by the previous entries, at most 100 in all |
| AutoAccessView.NextStats | frontend/src/components/AutoAccess.js:63-67 | total rises by one, and exactly one of permitted (truthy `acceso`) and denied rises by one |
| AutoAccessView.StatsAfterCounts | frontend/src/components/AutoAccess.js:12-67 | after a run of detections, total rose by their number and permitted by the truthy ones; permitted + denied = total is kept |
| AutoAccessView.AutoAccessView.constructor | frontend/src/components/AutoAccess.js:9-12 | no detection, empty history, zero counters, no alert |
| AutoAccessView.AutoAccessView.HandleDetection | frontend/src/components/AutoAccess.js:54-72 | The detection becomes current and heads the history. The counters are updated and the alert is shown. The balance and the 100-entry bound are kept |
| AutoAccessView.AutoAccessView.OnMessage | frontend/src/components/AutoAccess.js:28-33 | only a parsed message of type "detection" is handled; others and unparsable text change nothing |
| AutoAccessView.AutoAccessView.CloseAlert | frontend/src/components/AutoAccess.js:74-77 | the alert is hidden |
| AutoAccessView.TwoDetections | frontend/src/components/AutoAccess.js:54-72 | a permitted then a denied detection give history [denied, permitted] and counters 2, 1, 1 |
| DbHelpers.SchemaOf | backend/db_helpers.py:8 | an unset DB_SCHEMA is "public" |
| DbHelpers.TableName | backend/db_helpers.py:10-18 | the public schema leaves the table bare; any other gives schema "." table |
| DbHelpers.QualifiedNameShape | backend/db_helpers.py:15-18 | The result always ends with the table. For another schema it starts with the schema, has length \|schema\|+1+\|table\|, and has '.' at index \|schema\| |
| DbHelpers.TableNameInjective | backend/db_helpers.py:15-18 | two tables get the same name only if they are the same table |
| DbHelpers.UnsetSchemaLeavesNamesBare | backend/db_helpers.py:8-16 | without DB_SCHEMA every name is the bare table |
| ConnectionCheck.HostWithoutAt | backend/test_connection.py:20 | without '@' the host is "N/A" |
| ConnectionCheck.HostAfterFirstAt | backend/test_connection.py:20 | The host is the text after the first '@', up to the next '@' or '/' or the end. It has neither character |
| ConnectionCheck.HostIsSlice | backend/test_connection.py:20 | whenever there is an '@', the host is a substring of the URL free of '@' and '/' |
| ConnectionCheck.HostExample | backend/test_connection.py:20 | the host of `pg://u@h:1/db?s` is `h:1` |
| ConnectionCheck.DbNameWithoutSlash | backend/test_connection.py:21 | without '/' the database name is "N/A" |
| ConnectionCheck.DbNameAfterLastSlash | backend/test_connection.py:21 | the database name is the prefix of the text after the last '/' up to the first '?', and has neither '/' nor '?' |
| ConnectionCheck.DbNameExample | backend/test_connection.py:21 | the database name of `pg://u@h:1/db?s` is `db` |
| ConnectionCheck.ResolveIsFirstMatch | backend/test_connection.py:86-90 | with a case-insensitive match the resolved name is the first listed match; otherwise the requested name |
| ConnectionCheck.TableExistsIgnoresCase | backend/test_connection.py:86 | the lookup ignores the case of the requested name |
| ConnectionCheck.CountedTablesListed | backend/test_connection.py:83-90 | every table counted is listed by the schema and comes from an existing wanted table; every wanted table that exists is counted under its resolved name; no more tables are counted than were wanted |
| PyStr.JoinSplit | backend/test_connection.py:20-21 | joining a split with its separator gives the text back |
| PyStr.RemoveCharRemoves | backend/camera/detector.py:79 | `replace(c, '')` removes every `c`; a character is in the result exactly when it is in the text and is not `c` |

## Left out

- The threads are not modelled:
  - the capture loop and its one-second sleep (`backend/camera/camera_service.py:54-74`; one iteration is `CaptureStep`);
  - the dispatcher thread, `asyncio.run` and the queue's one-second timeout (`backend/routers/auto_access.py:222-235`).
  The queue is a sequential FIFO. An empty get stands for the timeout.
- YOLO, EasyOCR and every OpenCV call are outside the model. Their results are inputs, because they are foreign calls and floating-point image processing. This covers:
  - grey conversion, histogram equalisation, CLAHE, the thresholds;
  - the resize to 80 pixels;
  - rectangle and text drawing, JPEG encoding;
  - device open and release.
- All SQL is outside the model. The results of the queries in `_get_vehicle_data`, `verificar_acceso_cochera`, `historial_pagos` and `test_user` are inputs. The model does not capture:
  - the database exceptions that make `_get_vehicle_data` return None;
  - the tie order of rows with equal `fecha_pago` (the model takes the first);
  - the rows of `historial_pagos` beyond the no-department branch.
- bcrypt and JWT are outside the model. `authenticate_user`, `verify_token` and token issuance are function parameters.
- `strptime`/`strftime` and `datetime` arithmetic are outside the model. Days are integers, and "today" is a parameter.
- The detector's exception paths and the overlay's `except Exception: pass` are not modelled. The model never raises.
- The `/start`, `/stop` and `/ui` endpoints and `init_camera` are routing glue and an HTML page. They are left out; only their effect on `is_running` is covered, in `StatusFollowsStartStop`.
- The JSON text itself is not modelled. A serialized message is represented by the value it encodes, because only success or failure and equality of the text sent matter.
- Socket identity is an abstract `Socket` type. The transport and reconnects are out.
- AutoAccessView: the client's timers, reconnects and rendering (`frontend/src/components/AutoAccess.js:35-39,71` and the JSX) are UI. `DetectionOf` takes one `now` for both `id: Date.now()` and `timestamp: new Date()` (`frontend/src/components/AutoAccess.js:57-58`), which are two clock reads in the client. JavaScript values are modelled two levels deep, which is all the handler inspects.
- Camera.ParseInt: `int()` of a camera id accepts an optional sign and ASCII digits. Surrounding whitespace, underscores and non-ASCII digits, which Python also accepts, are not modelled.
- Camera.RequestedIndex: an id that is neither an `int` nor a `str` is `OtherId` and gives no requested index; Python would instead truncate a `float` id (`int(2.7) == 2`) and treat a `bool` id as 0 or 1 and probe that index. The only caller passes the integer 0 (`backend/camera/camera_service.py:242`).
- Camera.CameraService.ProcessFrame: one `now` stands for every clock read of one call of `_process_frame` (the cooldown test, the overlay timestamp, `last_detection_time` and the record's `datetime.now()`, `backend/camera/camera_service.py:130-193`), which in the source are separated by the inference and a database round-trip; the cooldown is therefore measured from that one instant, not from after the lookup. `Camera.CooldownScenario` relies on the same simplification.
- PyStr: `isalpha`, `isdigit`, `upper` and `lower` are ASCII only. Unicode letters and digits outside ASCII are not modelled.
- ConnectionCheck.DbNameAfterLastSlash: the position after the last '/' is a parameter (with the requirements that define it), not computed.
- ConnectionCheck: the row counts and the printing of `test_connection.py` are I/O.
- `db.tiene_permiso` and `routers/general.py` are not part of this model.

## Findings

| source | as written | input that shows it | evidently intended | confidence | as-written member | corrected member |
|---|---|---|---|---|---|---|
| backend/routers/auto_access.py:214-219 | `for connection in active_connections` removes a failing connection from the list being iterated, so the iterator skips the connection that moves into the freed slot | subscribers [a, b, c] where the send to a fails: b is never sent the detection, yet stays subscribed | every subscriber is tried once and the failing ones removed (iterate over a copy) | not executed | AutoAccess.BroadcastSkipsAfterRemoval | AutoAccess.Subscribers.BroadcastSnapshot |
| backend/routers/auto_access.py:216 | `json.dumps(message)` on a record whose `timestamp` is `datetime.now()` (backend/camera/camera_service.py:193) raises `TypeError`, which the bare `except` reads as a dead connection | any detection with at least one subscriber: no client is ever sent it, and every visited subscriber is removed | the timestamp is sent in a serializable form | not executed | AutoAccess.DetectionMessageNeverSerializes | AutoAccess.PortableMessageSerializes |
