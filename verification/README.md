# Tilt Five diagnostic tools: polling helpers, session error handling and marker layout

This project models, in Dafny, the sequential logic of two diagnostic programs
of the `tiltfive-diagnostic-cpp` repository and proves properties of it.

* `camera.cpp` drives the Tilt Five SDK. Its `main` prints the gameboard
  dimensions once and exits on any error. It then polls for the service
  version, the UI status flags and the glasses. With the glasses it reads two
  user settings, reserves them, reads poses for a fixed window while keeping an
  error-code histogram, releases them, and checks that a second read fails.
  The file also defines `waitForWand` and `doThingsWithWands`, but nothing in it
  calls them; `waitForWand` is modelled for completeness.
* `opencv-aruco.cpp`: its `main` only lays out a printable page of ArUco
  markers (`showArucoGrid`). The file also defines `showArucoMarkers`, which
  steps through the 250 markers of the 6x6 dictionary under key control; its
  call in `main` is commented out, and it is modelled as part of the tool's
  logic. `displayCapturedTiltFiveImage` is likewise defined, and its call is
  commented out.

Every SDK or OpenCV call is an oracle. The model receives the sequence of
outcomes its successive calls produce. A query result is
`Outcomes.Result<T> = Ok(value) | Err(error)`, with `Result<()>` standing for
`Result<void>`. The error codes the program tests for (`kNoService`,
`kSettingUnknown`, `kNotConnected`) are constructors; all other codes are
`Other(code)`.

Modules:

* `Outcomes` (outcomes.dfy): errors, results, and the `std::error_code` of a result.
* `Polling` (polling.dfy): the generic polling loop `Poll`. It is the reference
  definition against which each helper is proved.
* `Histogram` (histogram.dfy): `counts[key]++` on a `std::map`, and the sum of its values.
* `Camera` (camera.dfy): `waitForService`, `waitForGlasses`, `waitForWand`, and
  their nesting in `main`; `readPoses`; `doThingsWithGlasses`.
* `Decimal` (decimal.dfy): `std::to_string(int)`, with a parser that reads the text back.
* `Aruco` (aruco.dfy): `generateMarker`, `showArucoMarkers`, `showArucoGrid`.

A polling loop never stops while its query stays transient. It is modelled
over a finite prefix of outcomes. It ends in `Returned(result, calls, sleeps)`
when some outcome settles it. If every outcome in the prefix is transient, it
ends in `Polling(calls, sleeps)`: the loop is still waiting. Sleeps are counted,
not timed.

What each helper retries on:

* `waitForService` retries on `kNoService` and on nothing else.
* `waitForGlasses` and `waitForWand` retry on an empty listing. They return
  every listing error at once, `kNoService` included.
* `main` wraps `waitForGlasses` inside `waitForService`
  (`Camera.WaitForServiceGlasses`). So a `kNoService` from `listGlasses` or
  from `obtainGlasses` starts a fresh `waitForGlasses` call. That call lists the
  glasses again and makes its own `obtainGlasses` call. Each listing is
  therefore paired with the `obtainGlasses` oracle in force at that moment
  (`Camera.GlassesAttempt`).
* `waitForService` prints "Waiting for service..." before its first sleep and
  "." before every later one.

## Model

| member | source | states |
|---|---|---|
| Polling.PollSettles | tiltfive-diagnostic-cpp/src/camera.cpp:410-420 | when outcome k is the first that settles the loop, the loop returns that outcome's result after k+1 calls and k sleeps |
| Polling.PollNeverSettles | tiltfive-diagnostic-cpp/src/camera.cpp:410-425 | while every outcome is transient the loop does not return: it is still polling after one call and one sleep per outcome |
| Polling.PollShape | tiltfive-diagnostic-cpp/src/camera.cpp:410-425 | a run returns exactly when some outcome settles it; a returned run made one call more than sleeps, a waiting run made as many calls as sleeps, and never more calls than outcomes |
| Polling.SettlesOrNever | tiltfive-diagnostic-cpp/src/camera.cpp:410-425 | the loop has exactly two fates: some outcome settles it, or every outcome is transient |
| Polling.PollIgnoresLaterOutcomes | tiltfive-diagnostic-cpp/src/camera.cpp:412-420 | once the loop has returned, the query is never called again: outcomes after the settling one cannot change the run |
| Polling.PollAfterTransientPrefix | tiltfive-diagnostic-cpp/src/camera.cpp:410-425 | N transient outcomes in front of a query only add N calls and N sleeps and leave the result unchanged; a query that stays transient for N calls keeps the loop polling |
| Camera.WaitForService | tiltfive-diagnostic-cpp/src/camera.cpp:404-426 | with k kNoService outcomes before the first other one, the helper makes k+1 calls and k sleeps and returns outcome k unchanged; a first success or hard error returns after one call and no sleep; kNoService is never handed back; the progress text is "Waiting for service..." and then one "." per further sleep |
| Camera.WaitForGlasses | tiltfive-diagnostic-cpp/src/camera.cpp:53-84 | a listing error, on the first call or inside the loop, is returned at once; the helper retries only on empty lists; on exit with glasses, the list was non-empty and the obtainGlasses call made after that listing received its front element |
| Camera.WaitForWand | tiltfive-diagnostic-cpp/src/camera.cpp:104-130 | returns the front of the first non-empty listing, or the first listing error unchanged; it retries only on empty listings, one sleep per retry |
| Camera.WaitForServiceGlasses | tiltfive-diagnostic-cpp/src/camera.cpp:493-500 | waitForGlasses nested inside waitForService behaves as one polling loop over the listGlasses calls: it retries on empty lists and on kNoService, from the listing or from that attempt's own obtainGlasses call; the attempt that settles it has a listing error or glasses, and the loop returns that attempt's result after one sleep per earlier attempt; kNoService is never returned |
| Camera.ObtainRetriedAfterNoService | tiltfive-diagnostic-cpp/src/camera.cpp:83 | an obtainGlasses kNoService on the listed glasses is retried: the next attempt lists the same glasses, calls obtainGlasses again, and returns its success after two calls and one sleep |
| Histogram.Tally | tiltfive-diagnostic-cpp/src/camera.cpp:171-181 | a key is in the error-code histogram exactly when that code was observed, and its entry is the number of observations of that code |
| Histogram.TotalBump | tiltfive-diagnostic-cpp/src/camera.cpp:181 | every `errorCodeCount[code]++` adds exactly one to the sum of the histogram, whether or not the code was already present |
| Histogram.TallyTotal | tiltfive-diagnostic-cpp/src/camera.cpp:177-181 | the histogram of n observations sums to n |
| Camera.PosePasses | tiltfive-diagnostic-cpp/src/camera.cpp:169-253 | after the pass loop, count equals the number of passes and the histogram sums to count; successCount counts the passes that delivered an image; the saved frame is the first such pass; the buffer is cancelled exactly when some pass succeeded |
| Camera.ReadPoses | tiltfive-diagnostic-cpp/src/camera.cpp:155-256 | glasses that are not ready end the call with the ensureReady error and no pass; otherwise the call succeeds whatever the image reads returned, and the histogram sums to the pass count |
| Camera.CheckSettings | tiltfive-diagnostic-cpp/src/camera.cpp:287-302 | the session carries on exactly when the IPD read succeeded or reported kSettingUnknown; any other IPD error aborts with that same error |
| Camera.FriendlyNameNeverAborts | tiltfive-diagnostic-cpp/src/camera.cpp:273-285 | whatever getFriendlyName returns, the glasses session ends with the same result and the same check of the read after release |
| Camera.DoThingsWithGlasses | tiltfive-diagnostic-cpp/src/camera.cpp:259-353 | the session returns the first failure among settings check, connection, first pose read and release, in that order, or success; the read after release is reached exactly when the session succeeds and never changes its result; kNotConnected is the expected outcome there, a success is flagged, and any other error is reported as that same error; the friendly name and IPD are reported as read, with kSettingUnknown as "not set" |
| Decimal.NatToString | tiltfive-diagnostic-cpp/src/opencv-aruco.cpp:50 | the text of a non-negative id is a non-empty run of decimal digits with no leading zero |
| Decimal.IntToStringRoundTrip | tiltfive-diagnostic-cpp/src/opencv-aruco.cpp:50 | reading back the decimal text of any int yields that int |
| Decimal.ParseIntExact | tiltfive-diagnostic-cpp/src/opencv-aruco.cpp:50 | the parser accepts only text `std::to_string` writes: whatever it reads back an int from is exactly that int's text |
| Decimal.CanonicalDigits | tiltfive-diagnostic-cpp/src/opencv-aruco.cpp:50 | digits with no leading zero are exactly the text of the number they denote |
| Decimal.IntToStringInjective | tiltfive-diagnostic-cpp/src/opencv-aruco.cpp:50 | different ints have different decimal texts |
| Aruco.MarkerFileNameRoundTrip | tiltfive-diagnostic-cpp/src/opencv-aruco.cpp:50 | the file name "marker" + id + ".png" can be parsed back to the id |
| Aruco.MarkerFileNameExact | tiltfive-diagnostic-cpp/src/opencv-aruco.cpp:50 | a file name that parses to an id is exactly the name saved for that id |
| Aruco.MarkerFileNamesDistinct | tiltfive-diagnostic-cpp/src/opencv-aruco.cpp:48-52 | saving two different markers never writes the same file |
| Aruco.GenerateMarker | tiltfive-diagnostic-cpp/src/opencv-aruco.cpp:36-58 | key 113 ('q') quits and saves nothing; key 112 ('p') saves to exactly "marker" + id + ".png" and goes on; every other key goes on without saving |
| Aruco.GenerateMarkerSavesParsable | tiltfive-diagnostic-cpp/src/opencv-aruco.cpp:48-52 | the name generateMarker saves under parses back to the marker shown, and no other name parses to that marker |
| Aruco.PressedMarkersSaved | tiltfive-diagnostic-cpp/src/opencv-aruco.cpp:48-52 | over a walk of n markers, the file of every id answered with 'p' is saved |
| Aruco.OnlyPressedMarkersSaved | tiltfive-diagnostic-cpp/src/opencv-aruco.cpp:48-52 | over a walk of n markers, every saved file parses back to an id below n that was answered with 'p', and is exactly that id's file name |
| Aruco.ShowArucoMarkers | tiltfive-diagnostic-cpp/src/opencv-aruco.cpp:60-80 | shows ids 0, 1, 2, ... in increasing order; stops at the first 'q' or after exactly 250 ids and returns 0; with no key left it is still waiting; the saved files are those of the ids answered with 'p' |
| Aruco.SlotOfCell | tiltfive-diagnostic-cpp/src/opencv-aruco.cpp:100-112 | the marker placed at row r, column c is the (r*5 + c)-th one: filling is row-major |
| Aruco.SlotInsideCanvas | tiltfive-diagnostic-cpp/src/opencv-aruco.cpp:84-110 | every 200x200 marker of the 6x5 grid lies inside the 1140x1360 canvas |
| Aruco.SlotsDisjoint | tiltfive-diagnostic-cpp/src/opencv-aruco.cpp:105-110 | markers in different cells never overlap, because 200 < 220 |
| Aruco.LayoutGrid | tiltfive-diagnostic-cpp/src/opencv-aruco.cpp:84-115 | the canvas is 1140x1360; min(list length, 30) markers are placed, and the k-th list entry goes to row k/5, column k%5 at (col*220+20, row*220+20); the list index stays in bounds; every placed marker lies inside the canvas and no two overlap |
| Aruco.ShowArucoGrid | tiltfive-diagnostic-cpp/src/opencv-aruco.cpp:82-115 | of the 35 listed markers, the first 30 are drawn in list order; the last five, ids 4 to 8, are never drawn |

## Left out

- Tilt Five SDK behaviour (obtainClient, listGlasses, obtainGlasses, listWands, ensureReady, pose reads, camera-buffer submit/fill/cancel, the connection helper, release, parameter-change callbacks): the implementation is not visible. Each call is an oracle given as its sequence of outcomes. Each listGlasses outcome comes with its own obtainGlasses oracle, a function of the glasses identifier.
- printServiceVersion and printUiStatusFlags: each forwards one SDK result and prints it. They are the queries that `main` hands to waitForService, so they are modelled as the outcome sequences `WaitForService` receives.
- printGameboardDimensions: `main` calls it once, outside any polling loop, and exits on any error. It only forwards one SDK result and prints it, and the gameboard size sums are floating point.
- Sleep durations, the 10 s loop of doThingsWithWands, the 20 s window of readPoses and the 5 s wait in main: wall-clock behaviour. Sleeps are counted. The readPoses window is the finite sequence of its passes.
- Non-termination of the polling loops: a loop whose outcomes stay transient is shown still polling after any finite number of calls (`Polling` runs), not as a divergent computation.
- Camera.ReadPoses: accepts an empty sequence of passes. The source's do-while always runs at least one pass. Pose values, the float-keyed xPosDict, roundNum and the camera image content are not modelled. The results of initCameraImage and of each buffer resubmission are only printed, so they are dropped.
- Camera.PosePasses: the C++ `int` counters are unbounded here. A 20 s window cannot overflow them.
- doThingsWithWands and the parameter-change listener: they only print SDK reports, and nothing in camera.cpp calls doThingsWithWands.
- Console and stream output other than the progress text of `Camera.WaitForService`. The `main` entry points, except the glasses wait in camera.cpp's main, modelled as `Camera.WaitForServiceGlasses`.
- Camera.WaitForServiceGlasses: returns no progress text. The nested wait interleaves waitForService's marks with waitForGlasses' own "Looking for glasses..." and "." output; only the calls, sleeps and result are modelled.
- OpenCV calls and pixel content (imread, imshow, waitKey, imwrite, generateImageMarker, copyTo): only key codes, file names and rectangle coordinates are modelled. displayCapturedTiltFiveImage is image I/O only.
- showArucoGrid after the layout: the key awaited, the unconditional write of markerPage.png, and the missing return value, which is undefined behaviour in C++.
- tiltfive-diagnostic-cpp/src/opencv.cpp and tiltfive-diagnostic-cpp/src/opencv-detection.cpp: straight-line image I/O and display with no logic of their own.
