# Session bookkeeping of the webcam classifier trainer

The trainer page (`static/js/main.js`) lets a user name classes, hold a
button to record webcam frames for the selected class, and switch to live
prediction with a nearest-neighbour classifier built on an image-embedding
network. Under the DOM wiring sits a small state machine over module-level
globals:

- `classes`: the class names, in the order they were added.
- `trainingData`: a plain object from class name to the number of samples recorded. At most 100 per class (`MAX_SAMPLES_PER_CLASS`).
- `isTraining`, `isPredicting` and `currentClass`: the mode flags and the selected class.
- the KNN classifier. It is seen only through the number of examples it holds per label, because `getNumClasses()` is what the handlers test.

This project models those globals and the handlers that update them, and
proves what the handlers promise.

Layout:

- `handlers.dfy` (module `Handlers`): the state as a datatype, and one function per handler from the old state to the new one.
  - `Inv` is the invariant every handler keeps: no duplicate class, no blank or untrimmed class name (`ClassesOk`), a well-formed `trainingData` with no count above 100 (`CountsOk`), a positive example count for every classifier label (`ClassifierOk`), and a selected class while recording.
  - `Step` and `Run` drive the handlers with any sequence of the user and timer events whose listeners get registered, with either the as-written or the corrected frame callback. For every such run from the initial globals, `ReachableStates` proves the whole invariant `Inv` and that prediction stays off.
- `app.dfy` (module `App`): class `Session`, whose fields are the globals.
  - Each handler is a method that updates the fields in place. It is proved to make exactly the transition its `Handlers` function describes.
  - `UpdateCaptureStats` is the `for...in` loop that builds the status line.
- `capture_stats.dfy`: the status line and what it shows.
- `js_object.dfy`: a plain JavaScript object, which keeps property creation order, and the order in which `for...in` and `Object.keys` visit its keys. Keys that are array indices come first, in ascending numeric order; the others follow in creation order (section 10.1.11.1 of ECMA-262).
- `js_strings.dfy`: the built-ins the handlers rely on.
  - `String.prototype.trim`, with the WhiteSpace and LineTerminator sets of ECMA-262.
  - Number-to-String for counts.
  - `Array.prototype.join`.
  - The `filter(c => c !== name)` idiom.
- `wrappers.dfy`: `Option`.

The webcam's presence (`!webcam`) is a parameter of the handlers that
test it. Whether embedding or `addExample` throws during a frame is the
`inferenceFails` parameter.

Quirks of the code that the model keeps:

- Deleting a class keeps its sample count in `trainingData`. That count is still shown in the status line and still counts toward the auto-predict rule (`Handlers.DeletedClassStillCounts`).
- `currentClass` is not cleared when its class is deleted. The record guard only tests that it is a non-empty string.
- When recording stops with two classes trained, the script calls `startPredicting`, which is not defined anywhere. `StopRecording` therefore returns the decision "should start predicting" instead of switching modes.
- Reaching the cap does not stop recording (see Findings).
- `trainingData` is an object literal, so it inherits the properties of `Object.prototype`. For a class named, say, "constructor", `!trainingData[name]` is false, so no count is ever created. Its `< 100` test compares NaN, so every frame takes the cap branch (`Handlers.InheritedNameNeverRecords`).
- A class name goes into the button's `innerHTML` unescaped. When that markup leaves no delete span (a name such as "<!--"), `addNewClass` throws after the name is listed and before the first class is selected.
- `trainModel` adds at most one example per call. Its success message throws, because `showMessage` is not in scope, so it never reschedules itself.
- `togglePrediction` is attached to no event, and `startPredicting` does not exist. So nothing the page wires up ever turns prediction on.

## Model

| member | source | states |
|---|---|---|
| JsStrings.Trim | static/js/main.js:230 | the trimmed name is empty exactly when the input is all JavaScript whitespace; otherwise it neither starts nor ends with whitespace |
| JsStrings.TrimStripsOnlyWhitespace | static/js/main.js:230 | the input is the trimmed name with only whitespace before and after it |
| JsStrings.TrimIdempotent | static/js/main.js:230 | trimming a trimmed name changes nothing, so stored names are their own trim |
| JsStrings.DecimalString | static/js/main.js:79 | a count renders as a non-empty run of decimal digits without a leading zero |
| JsStrings.DecimalRoundTrip | static/js/main.js:79 | reading the rendered digits back gives the count |
| JsStrings.CanonicalDecimalRoundTrip | static/js/main.js:78 | a digit string without a leading zero is the rendering of its own value |
| JsStrings.JoinContains | static/js/main.js:82 | every entry of `stats` appears in the joined status text |
| JsStrings.JoinEndsWithLast | static/js/main.js:82 | a non-empty join ends with its last entry |
| JsStrings.Without | static/js/main.js:307 | the filtered list holds exactly the old names other than the deleted one |
| JsStrings.WithoutAt | static/js/main.js:307 | in a duplicate-free list, filtering out the name at index i gives the list with exactly that index removed, the others in order |
| JsStrings.WithoutAbsent | static/js/main.js:307 | deleting a name that is not listed leaves the list unchanged |
| JsStrings.WithoutKeepsNoDup | static/js/main.js:307 | filtering keeps the list free of duplicates |
| JsObject.Put | static/js/main.js:145 | assigning a property overwrites an existing one in place or appends a new key last, and keeps the object well formed |
| JsObject.IsArrayIndexIsCanonical | static/js/main.js:78 | the keys enumerated first are exactly the decimal renderings of numbers below 2^32 - 1 |
| JsObject.ForInOrder | static/js/main.js:78 | enumeration visits a rearrangement of the object's keys |
| JsObject.ForInOrderIndexKeysFirst | static/js/main.js:78 | array-index keys are visited first in ascending numeric order, all other keys after them |
| JsObject.ForInOrderOfNonNumericKeys | static/js/main.js:78 | without numeric class names, enumeration follows creation order |
| JsObject.ForInOrderVisitsEachKeyOnce | static/js/main.js:78 | every key is visited, and none twice |
| Handlers.AddNewClass | static/js/main.js:229-277 | a name blank after trimming is rejected, and so is a name already listed; both leave the state unchanged. Otherwise the trimmed name is appended after the earlier ones. When the button markup lost its delete span, the handler stops there (the throw at lines 257-258). Otherwise, when it is the first class, it is selected through setCurrentClass. The invariant (no duplicates, trimmed non-empty names) is kept |
| Handlers.SetCurrentClass | static/js/main.js:280-287 | `currentClass` becomes the name and `trainingData` goes through `WithEntry`, so afterwards the name has an own count exactly when it had one or is not inherited from `Object.prototype`; nothing else changes |
| Handlers.DeleteClass | static/js/main.js:305-330 | the name is removed and the others keep their order. If the classifier had any class, it is emptied and both mode flags are cleared; otherwise the flags stay. `trainingData` and `currentClass` are untouched |
| Handlers.StartRecording | static/js/main.js:135-143 | recording starts exactly when there is a webcam, `currentClass` is a non-empty string and training is off; otherwise nothing changes |
| Handlers.TrainedThreshold | static/js/main.js:189-190 | two or more trained entries exist exactly when two different classes have a positive count |
| Handlers.StopRecording | static/js/main.js:180-193 | without a webcam nothing happens. With one, recording stops; the result asks for predictions exactly when two or more counts are positive and prediction is off |
| Handlers.AddExample | static/js/main.js:154 | adding an example raises that label's example count by one and leaves the other labels alone |
| Handlers.WithEntry | static/js/main.js:144-146 | the object is unchanged when the name has an own property or is inherited. Otherwise the name becomes a new last key holding 0. No count changes value, and well-formedness is kept |
| Handlers.BelowCapIff | static/js/main.js:144-148 | a frame is counted exactly when the class's own count is below 100, or when it has none and its name is not inherited (an inherited value compares as NaN) |
| Handlers.Frame | static/js/main.js:143-176 | below the cap, the count is created if missing and raised by one in place (`Put`), and the classifier gains one example; if inference throws, only the missing count is created. Otherwise `trainingData` and the classifier are unchanged and recording stops through stopRecording. Other counts, the class list and the flags are unchanged |
| Handlers.FrameCountsOne | static/js/main.js:148-160 | a recorded frame raises its class's count by exactly one |
| Handlers.FrameKeepsInv | static/js/main.js:143-176 | a frame callback keeps the invariant; in particular no count ever exceeds 100 and no inherited name becomes an own key |
| Handlers.CountStepKeepsCounts | static/js/main.js:144-160 | creating a missing count and raising one below the cap keep every count within 100 |
| Handlers.FrameAsWritten | static/js/main.js:143-176 | as written: below the cap it behaves as `Frame`; at the cap the whole state is unchanged and recording goes on; it keeps the invariant |
| Handlers.InheritedNameNeverRecords | static/js/main.js:144-148 | a class named after an inherited property never gets a count: as written each frame changes nothing, and as intended recording stops at once |
| Handlers.CapFrameKeepsRecording | static/js/main.js:172-175 | at the cap, the as-written callback leaves recording on while the corrected one turns it off |
| Handlers.StartTraining | static/js/main.js:333-354 | fails without a webcam, then with fewer than two classes; otherwise only `isTraining` becomes true |
| Handlers.TrainModel | static/js/main.js:359-386 | does nothing without a webcam or a truthy `currentClass`, or when the capture throws; otherwise the classifier gains exactly one example for the current class and nothing else changes |
| Handlers.TogglePrediction | static/js/main.js:389-403 | predicting is switched off when on; otherwise switched on exactly when the classifier holds two or more classes, and left unchanged when not |
| Handlers.Step | static/js/main.js:93-120 | every registered user or timer event keeps the invariant and never turns prediction on; the start-training click runs `trainModel` once when training starts |
| Handlers.RunKeepsInv | static/js/main.js:5-8 | any sequence of events from a valid state, with either frame callback, ends in a valid state, with prediction still off if it was off |
| Handlers.ReachableStates | static/js/main.js:27-29 | from the initial globals, with the as-written or the corrected frame callback, every reachable state satisfies `Inv` (in particular no duplicate or blank class, no count above 100, and no inherited name as an own key) and has prediction off |
| Handlers.DeletedClassStillCounts | static/js/main.js:318-326 | a deleted class with samples, plus one other trained class, still makes stopRecording ask for predictions |
| CaptureStats.EntryShape | static/js/main.js:79 | an entry starts with the class name and ends with " samples" |
| CaptureStats.EntryShowsCount | static/js/main.js:79 | the count can be read back from its entry after the name and ": " |
| CaptureStats.EntriesAt | static/js/main.js:77-80 | the i-th entry describes the i-th visited class with its count |
| CaptureStats.StatusIsPlaceholderIff | static/js/main.js:82-87 | the status is the "No samples captured yet" placeholder exactly when `trainingData` has no key and prediction is off |
| CaptureStats.StatusListsEveryClass | static/js/main.js:76-90 | every class in `trainingData` appears in the status line with its count |
| App.Session.constructor | static/js/main.js:4-8 | the globals start empty, with both flags off and no current class |
| App.Session.AddNewClass | static/js/main.js:229-277 | performs the `Handlers.AddNewClass` transition in place and keeps the invariant |
| App.Session.SetCurrentClass | static/js/main.js:280-287 | performs the `Handlers.SetCurrentClass` transition in place |
| App.Session.DeleteClass | static/js/main.js:305-330 | performs the `Handlers.DeleteClass` transition in place |
| App.Session.StartRecording | static/js/main.js:135-143 | performs the `Handlers.StartRecording` transition in place |
| App.Session.OnFrame | static/js/main.js:143-176 | performs the corrected `Handlers.Frame` transition in place, so counts never exceed 100 |
| App.Session.StopRecording | static/js/main.js:180-193 | performs the `Handlers.StopRecording` transition in place and returns its decision |
| App.Session.StartTraining | static/js/main.js:333-354 | performs the `Handlers.StartTraining` transition in place |
| App.Session.TrainModel | static/js/main.js:359-386 | performs the `Handlers.TrainModel` transition in place |
| App.Session.TogglePrediction | static/js/main.js:389-403 | performs the `Handlers.TogglePrediction` transition in place |
| App.Session.UpdateCaptureStats | static/js/main.js:76-90 | the loop builds exactly the status line `CaptureStats.StatusText` describes |

## Left out

- Webcam lifecycle (`toggleWebcam`, flip camera, the `Webcam` class): this is device I/O. The presence of `webcam` is a parameter of the handlers that test it. A frame's arrival is an event that happens only while the frame interval runs.
- Embedding (`net.infer`) and the KNN classifier's internals are opaque libraries. Each is reduced to a per-label example count, plus a flag saying whether the call threw.
- Handlers.TrainModel: the frame is captured, embedded and added as one step. The `await` on the capture, after which `currentClass` is read again, is not modelled.
- Not modelled because they are UI glue or use floats: `predict`, `displayPredictions` and `saveModel` (float confidences, sorting, JSON and Blob download), `showMessage`, capture indicators, and button enabling and `innerHTML` updates.
- Handlers.TogglePrediction: only the flag updates. As written the function is never attached to any event, so `Step` never calls it. Unless the page has an element with id `predictButton`, it throws right after each flag update, so the busy `while (isPredicting)` loop is never reached; with such an element the loop spins forever. Neither case is reachable, since nothing calls the function.
- Handlers.StopRecording: returns whether `startPredicting` would be called; that function does not exist.
- The class buttons are looked up by `textContent.includes`, so deleting "cat" can remove the "cats" button instead. Because of this, `SetCurrentClass` accepts any name, not only listed ones.
- `initApp`, `setupEventListeners` and the `keypress` handler are DOM wiring. Enter in the name field (lines 126-130) calls `addNewClass` and so is the same `AddClassClicked` event. At line 123 the global `saveModel` resolves to the `#saveModel` button element, through the window's named access, because the function of that name is nested inside `togglePrediction`. That element is registered as the save button's listener, and a click on it changes no state.
- Class names are sequences of Unicode code points, not UTF-16 code units. Every character `trim` strips is a single code unit, so trimming agrees.
- The unused `currentClassSamples` variable is not modelled.
- CaptureStats.PredictingSuffix: line 86 of `main.js` holds its emoji mis-decoded ("ðŸ”", last byte lost). The model uses U+1F50D (left-pointing magnifying glass), whose UTF-8 encoding those characters begin.
- Handlers.AddNewClass: which names lose the delete span depends on HTML parsing. That is the `deleteSpanMissing` parameter, not a predicate on the name.
- Async scheduling: each handler and each frame callback runs as one atomic step. The frame callback has no `await` before its updates.
- `app.py`, `controllers/user_controller.py` and `dev_server.py` are not part of this model.

## Findings

| source | as written | input that shows it | evidently intended | confidence | as-written member | corrected member |
|---|---|---|---|---|---|---|
| static/js/main.js:172-174 | at the cap the callback calls `showMessage`, which is declared only inside `togglePrediction` (its `while` at lines 405-406 leaves the following functions nested), so the call throws a ReferenceError before `stopRecording()` runs and the frame interval keeps firing | any frame while `trainingData[currentClass]` is 100 | reaching the cap stops recording and applies the auto-predict rule | high; not executed | Handlers.FrameAsWritten | Handlers.Frame |
