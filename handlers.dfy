/**
 * The session bookkeeping of the trainer page script: the class list, the
 * per-class sample counts (`trainingData`), the nearest-neighbour
 * classifier seen only through its per-label example counts, and the
 * `isTraining` / `isPredicting` / `currentClass` flags. Each event handler
 * is a function from the old state to the new one; the class
 * `App.Session` performs the same updates in place.
 */
module Handlers {
  import opened Wrappers
  import opened JsStrings
  import opened JsObject

  /** The per-class cap on recorded samples. */
  const MaxSamplesPerClass: nat := 100

  datatype State = State(
    classes: seq<string>,
    trainingData: Obj,
    classifier: map<string, nat>,  // label -> examples added to the classifier
    isTraining: bool,
    isPredicting: bool,
    currentClass: Option<string>,
    capturing: bool)               // the webcam's frame interval is running

  /** The globals as the script initialises them. */
  const Initial: State := State([], Empty, map[], false, false, None, false)

  datatype Transition<O> = Transition(next: State, out: O)

  /** A string variable is truthy: it is neither null nor the empty string. */
  predicate IsTruthy(s: Option<string>) {
    s.Some? && s.value != ""
  }

  /**
   * `trainingData[k] > 0`: an own count above 0. A missing property and the
   * functions inherited from `Object.prototype` compare as NaN, so false.
   */
  predicate HasSamples(o: Obj, k: string) {
    k in o.vals && o.vals[k] != 0
  }

  /** `classifier.getNumClasses()`: the labels that hold at least one example. */
  function NumClasses(classifier: map<string, nat>): nat {
    |classifier.Keys|
  }

  /** The class list: no duplicates, and every name non-empty and trimmed. */
  ghost predicate ClassesOk(classes: seq<string>) {
    && NoDup(classes)
    && (forall i :: 0 <= i < |classes| ==> classes[i] != "" && Trim(classes[i]) == classes[i])
  }

  /**
   * The sample counts: a well-formed object with no count above the cap,
   * and no own property that shadows an inherited one.
   */
  ghost predicate CountsOk(o: Obj) {
    && WellFormed(o)
    && (forall k :: k in o.vals ==> o.vals[k] <= MaxSamplesPerClass && k !in InheritedNames)
  }

  /** Every label the classifier knows holds at least one example. */
  ghost predicate ClassifierOk(classifier: map<string, nat>) {
    forall k :: k in classifier ==> classifier[k] > 0
  }

  /** What every handler preserves. */
  ghost predicate Inv(st: State) {
    && ClassesOk(st.classes)
    && CountsOk(st.trainingData)
    && ClassifierOk(st.classifier)
    && (st.capturing ==> st.currentClass.Some?)
  }

  lemma InitialInv()
    ensures Inv(Initial)
  {
  }

  // ------------------------------------------------------------ classes

  datatype AddResult =
    | Added          // appended; selected when it is the first class
    | AddedThenThrew // appended, then the lookup of its delete span failed
    | EmptyName
    | AlreadyExists

  /**
   * `addNewClass` with the text field holding `input`. The name is written
   * into the new button's `innerHTML` unescaped; `deleteSpanMissing` says
   * that the HTML parser then left no `.delete-class` element in it (a name
   * that opens a comment such as "<!--", or a raw-text element such as
   * "<textarea>"). `querySelector` then returns null and the next line
   * throws, after the name was pushed and before the first class is selected.
   */
  function AddNewClass(st: State, input: string, deleteSpanMissing: bool): (r: Transition<AddResult>)
    ensures r.out == EmptyName <==> Trim(input) == ""
    ensures r.out == AlreadyExists <==> Trim(input) != "" && Trim(input) in st.classes
    ensures r.out == AddedThenThrew <==> Trim(input) != "" && Trim(input) !in st.classes && deleteSpanMissing
    ensures r.out == EmptyName || r.out == AlreadyExists ==> r.next == st
    ensures r.out == Added || r.out == AddedThenThrew ==> r.next.classes == st.classes + [Trim(input)]
    ensures r.out == AddedThenThrew ==> r.next == st.(classes := r.next.classes)
    ensures r.out == Added && st.classes == [] ==> r.next == SetCurrentClass(st.(classes := [Trim(input)]), Trim(input))
    ensures r.out == Added && st.classes != [] ==> r.next == st.(classes := r.next.classes)
    ensures Inv(st) ==> Inv(r.next)
  {
    var name := Trim(input);
    if name == "" then Transition(st, EmptyName)
    else if name in st.classes then Transition(st, AlreadyExists)
    else
      var added := st.(classes := st.classes + [name]);
      AppendClassKeepsInv(st, input);
      if deleteSpanMissing then Transition(added, AddedThenThrew)
      else if |added.classes| == 1 then Transition(SetCurrentClass(added, name), Added)
      else Transition(added, Added)
  }

  /** Appending a new trimmed, non-empty name keeps the invariant. */
  lemma AppendClassKeepsInv(st: State, input: string)
    requires Trim(input) != "" && Trim(input) !in st.classes
    ensures Inv(st) ==> Inv(st.(classes := st.classes + [Trim(input)]))
  {
    TrimIdempotent(input);
    var cs := st.classes + [Trim(input)];
    assert forall i :: 0 <= i < |st.classes| ==> cs[i] == st.classes[i];
  }

  /**
   * `if (!trainingData[c]) trainingData[c] = 0;`: a name that has no own
   * property and is not inherited gets a new last property holding 0; every
   * other object is left as it is (an own 0 is overwritten by 0).
   */
  function WithEntry(o: Obj, c: string): (r: Obj)
    ensures c in o.vals || c in InheritedNames ==> r == o
    ensures c !in o.vals && c !in InheritedNames ==> r == Obj(o.keys + [c], o.vals[c := 0])
    ensures forall k :: Count(r, k) == Count(o, k)
    ensures WellFormed(o) ==> WellFormed(r)
  {
    if IsTruthyProp(o, c) then o
    else
      assert c in o.vals ==> o.vals[c := 0] == o.vals;
      Put(o, c, 0)
  }

  /** `setCurrentClass`: select `name`, creating its count at 0 when `trainingData[name]` is falsy. */
  function SetCurrentClass(st: State, name: string): (r: State)
    ensures r.currentClass == Some(name)
    ensures r.trainingData == WithEntry(st.trainingData, name)
    ensures name in r.trainingData.vals <==> name in st.trainingData.vals || name !in InheritedNames
    ensures r == st.(currentClass := r.currentClass, trainingData := r.trainingData)
    ensures Inv(st) ==> Inv(r)
  {
    st.(currentClass := Some(name), trainingData := WithEntry(st.trainingData, name))
  }

  /**
   * `deleteClass`: drop `name` from the class list; when the classifier holds
   * any class, replace it by an empty one and clear both mode flags. The
   * sample counts are kept, and so is `currentClass`.
   */
  function DeleteClass(st: State, name: string): (r: State)
    ensures forall c :: c in r.classes <==> c in st.classes && c != name
    ensures name !in st.classes ==> r.classes == st.classes
    ensures forall i :: 0 <= i < |st.classes| && st.classes[i] == name && NoDup(st.classes) ==>
      r.classes == st.classes[..i] + st.classes[i + 1..]
    ensures r.trainingData == st.trainingData
    ensures r.currentClass == st.currentClass && r.capturing == st.capturing
    ensures NumClasses(st.classifier) > 0 ==> r.classifier == map[] && !r.isTraining && !r.isPredicting
    ensures NumClasses(st.classifier) == 0 ==>
      r.classifier == st.classifier && r.isTraining == st.isTraining && r.isPredicting == st.isPredicting
    ensures Inv(st) ==> Inv(r)
  {
    WithoutFacts(st.classes, name);
    var kept := st.(classes := Without(st.classes, name));
    if NumClasses(st.classifier) > 0 then
      kept.(classifier := map[], isTraining := false, isPredicting := false)
    else kept
  }

  /** The facts about `filter(c => c !== name)` that `DeleteClass` states. */
  lemma WithoutFacts(xs: seq<string>, name: string)
    ensures name !in xs ==> Without(xs, name) == xs
    ensures NoDup(xs) ==> NoDup(Without(xs, name))
    ensures forall i :: 0 <= i < |xs| && xs[i] == name && NoDup(xs) ==>
      Without(xs, name) == xs[..i] + xs[i + 1..]
  {
    if name !in xs {
      WithoutAbsent(xs, name);
    }
    if NoDup(xs) {
      WithoutKeepsNoDup(xs, name);
      forall i | 0 <= i < |xs| && xs[i] == name ensures Without(xs, name) == xs[..i] + xs[i + 1..] {
        WithoutAt(xs, i);
      }
    }
  }

  // ---------------------------------------------------------- recording

  /** The guard of `startRecording`; when it passes the frame interval starts. */
  function StartRecording(st: State, webcam: bool): (r: Transition<bool>)
    ensures r.out <==> webcam && IsTruthy(st.currentClass) && !st.isTraining
    ensures !r.out ==> r.next == st
    ensures r.out ==> r.next == st.(capturing := true)
    ensures Inv(st) ==> Inv(r.next)
  {
    if !webcam || !IsTruthy(st.currentClass) || st.isTraining then Transition(st, false)
    else Transition(st.(capturing := true), true)
  }

  /** `p in ks` with a positive count, in the order of `ks`. */
  function Positive(ks: seq<string>, o: Obj): (r: seq<string>)
    ensures forall k :: k in r <==> k in ks && HasSamples(o, k)
    ensures NoDup(ks) ==> NoDup(r)
  {
    if ks == [] then []
    else if HasSamples(o, ks[0]) then
      var rest := Positive(ks[1..], o);
      assert NoDup(ks) ==> ks[0] !in rest;
      [ks[0]] + rest
    else Positive(ks[1..], o)
  }

  /** `Object.keys(trainingData).filter(c => trainingData[c] > 0)`. */
  function TrainedClasses(o: Obj): seq<string> {
    Positive(ForInOrder(o.keys), o)
  }

  /** At least two entries are positive exactly when two different classes have samples. */
  lemma TrainedThreshold(o: Obj)
    requires WellFormed(o)
    ensures |TrainedClasses(o)| >= 2 <==>
      exists a, b :: a != b && HasSamples(o, a) && HasSamples(o, b)
  {
    ForInOrderVisitsEachKeyOnce(o.keys);
    var t := TrainedClasses(o);
    if |t| >= 2 {
      assert t[0] in t && t[1] in t;
      assert t[0] != t[1] && HasSamples(o, t[0]) && HasSamples(o, t[1]);
    }
    if a, b :| a != b && HasSamples(o, a) && HasSamples(o, b) {
      assert a in ForInOrder(o.keys) && b in ForInOrder(o.keys);
      TwoMembers(t, a, b);
    }
  }

  lemma TwoMembers(t: seq<string>, a: string, b: string)
    requires a in t && b in t && a != b
    ensures |t| >= 2
  {
    var i :| 0 <= i < |t| && t[i] == a;
    var j :| 0 <= j < |t| && t[j] == b;
    assert i != j;
  }

  /**
   * `stopRecording` as a guarded update: with a webcam the frame interval
   * stops; the result says whether the script then asks for predictions to
   * start (two or more classes with samples and not predicting yet).
   */
  function StopRecording(st: State, webcam: bool): (r: Transition<bool>)
    ensures r.out <==> webcam && |TrainedClasses(st.trainingData)| >= 2 && !st.isPredicting
    ensures !webcam ==> r.next == st
    ensures webcam ==> r.next == st.(capturing := false)
    ensures Inv(st) ==> Inv(r.next)
  {
    if !webcam then Transition(st, false)
    else Transition(st.(capturing := false), |TrainedClasses(st.trainingData)| >= 2 && !st.isPredicting)
  }

  datatype FrameResult =
    | Recorded                        // the sample was counted
    | InferenceFailed                 // net.infer or addExample threw; nothing counted
    | CapReached(startPredicting: bool) // at the cap: recording stopped
    | CapReachedThrew                 // at the cap, as written: the warning throws

  /** `classifier.addExample(activation, name)`, seen as a count per class name. */
  function AddExample(classifier: map<string, nat>, name: string): (r: map<string, nat>)
    ensures r.Keys == classifier.Keys + {name}
    ensures r[name] == (if name in classifier then classifier[name] else 0) + 1
    ensures forall k :: k in classifier && k != name ==> r[k] == classifier[k]
  {
    classifier[name := (if name in classifier then classifier[name] else 0) + 1]
  }

  /**
   * The test `trainingData[c] < MAX_SAMPLES_PER_CLASS`, made after the
   * callback's first step has created a missing count.
   */
  predicate BelowCap(o: Obj, c: string) {
    PropLess(WithEntry(o, c), c, MaxSamplesPerClass)
  }

  /**
   * A frame is counted when the class's own count is below the cap, or when
   * it has none yet and its name is not inherited; an inherited name
   * compares as NaN, so every frame takes the cap branch.
   */
  lemma BelowCapIff(o: Obj, c: string)
    ensures BelowCap(o, c) <==> if c in o.vals then o.vals[c] < MaxSamplesPerClass else c !in InheritedNames
  {
  }

  /**
   * The frame callback installed by `startRecording`, with the cap branch as
   * evidently intended: at the cap, recording stops through `stopRecording`
   * (the webcam exists while frames arrive).
   */
  function Frame(st: State, inferenceFails: bool): (r: Transition<FrameResult>)
    requires st.capturing && st.currentClass.Some?
    ensures var c := st.currentClass.value; var o := st.trainingData; var n := Count(o, c);
      && (BelowCap(o, c) && !inferenceFails ==>
            && r.out == Recorded && r.next.trainingData == Put(WithEntry(o, c), c, n + 1)
            && r.next.classifier == AddExample(st.classifier, c) && r.next.capturing)
      && (BelowCap(o, c) && inferenceFails ==>
            && r.out == InferenceFailed && r.next.trainingData == WithEntry(o, c)
            && r.next.classifier == st.classifier && r.next.capturing)
      && (!BelowCap(o, c) ==>
            && r.out == CapReached(|TrainedClasses(o)| >= 2 && !st.isPredicting)
            && r.next.trainingData == o && r.next.classifier == st.classifier && !r.next.capturing)
    ensures forall k :: k != st.currentClass.value ==> Count(r.next.trainingData, k) == Count(st.trainingData, k)
    ensures r.next.classes == st.classes && r.next.currentClass == st.currentClass
    ensures r.next.isTraining == st.isTraining && r.next.isPredicting == st.isPredicting
  {
    var c := st.currentClass.value;
    var data := WithEntry(st.trainingData, c);
    if PropLess(data, c, MaxSamplesPerClass) then
      if inferenceFails then Transition(st.(trainingData := data), InferenceFailed)
      else Transition(st.(trainingData := Put(data, c, data.vals[c] + 1), classifier := AddExample(st.classifier, c)), Recorded)
    else
      assert data == st.trainingData;
      var stopped := StopRecording(st, true);
      Transition(stopped.next, CapReached(stopped.out))
  }

  /** A recorded frame raises its class's count by exactly one. */
  lemma FrameCountsOne(st: State)
    requires st.capturing && st.currentClass.Some? && BelowCap(st.trainingData, st.currentClass.value)
    ensures var c := st.currentClass.value;
      Count(Frame(st, false).next.trainingData, c) == Count(st.trainingData, c) + 1
  {
  }

  /** A frame keeps the invariant; in particular no count passes the cap. */
  lemma FrameKeepsInv(st: State, inferenceFails: bool)
    requires st.capturing && st.currentClass.Some?
    ensures Inv(st) ==> Inv(Frame(st, inferenceFails).next)
  {
    if !Inv(st) {
      return;
    }
    var c := st.currentClass.value;
    var data := WithEntry(st.trainingData, c);
    if PropLess(data, c, MaxSamplesPerClass) {
      CountStepKeepsCounts(st.trainingData, c);
    }
  }

  /** Creating a missing count and raising a count below the cap keep the counts valid. */
  lemma CountStepKeepsCounts(o: Obj, c: string)
    requires CountsOk(o) && PropLess(WithEntry(o, c), c, MaxSamplesPerClass)
    ensures CountsOk(WithEntry(o, c))
    ensures CountsOk(Put(WithEntry(o, c), c, WithEntry(o, c).vals[c] + 1))
  {
    var data := WithEntry(o, c);
    assert c !in InheritedNames;
    assert CountsOk(data);
  }

  /**
   * The frame callback as written. At the cap it calls `showMessage`, which
   * is declared only inside `togglePrediction` and so is not in scope here:
   * the call throws before `stopRecording()` runs, and the frame interval
   * keeps running.
   */
  function FrameAsWritten(st: State, inferenceFails: bool): (r: Transition<FrameResult>)
    requires st.capturing && st.currentClass.Some?
    ensures !BelowCap(st.trainingData, st.currentClass.value) ==> r.out == CapReachedThrew && r.next == st
    ensures BelowCap(st.trainingData, st.currentClass.value) ==> r == Frame(st, inferenceFails)
    ensures Inv(st) ==> Inv(r.next)
  {
    if !BelowCap(st.trainingData, st.currentClass.value) then Transition(st, CapReachedThrew)
    else
      FrameKeepsInv(st, inferenceFails);
      Frame(st, inferenceFails)
  }

  /** As written, a frame at the cap leaves recording on; as intended, it turns it off. */
  lemma CapFrameKeepsRecording(st: State, inferenceFails: bool)
    requires st.capturing && st.currentClass.Some?
    requires Count(st.trainingData, st.currentClass.value) == MaxSamplesPerClass
    ensures FrameAsWritten(st, inferenceFails).next.capturing
    ensures !Frame(st, inferenceFails).next.capturing
  {
  }

  /**
   * A class named after an inherited property never gets a count: on the
   * page as written every frame for it takes the cap branch and changes
   * nothing, and the corrected callback stops recording at the first frame.
   */
  lemma InheritedNameNeverRecords(st: State, inferenceFails: bool)
    requires Inv(st) && st.capturing && st.currentClass.Some? && st.currentClass.value in InheritedNames
    ensures FrameAsWritten(st, inferenceFails) == Transition(st, CapReachedThrew)
    ensures !Frame(st, inferenceFails).next.capturing
    ensures st.currentClass.value !in Frame(st, inferenceFails).next.trainingData.vals
  {
    BelowCapIff(st.trainingData, st.currentClass.value);
  }

  // ---------------------------------------------------------- modes

  datatype TrainingResult = TrainingStarted | NoWebcam | TooFewClasses

  /** The checks of `startTraining`, then `isTraining = true`. */
  function StartTraining(st: State, webcam: bool): (r: Transition<TrainingResult>)
    ensures r.out == NoWebcam <==> !webcam
    ensures r.out == TooFewClasses <==> webcam && |st.classes| < 2
    ensures r.out != TrainingStarted ==> r.next == st
    ensures r.out == TrainingStarted ==> r.next == st.(isTraining := true)
    ensures Inv(st) ==> Inv(r.next)
  {
    if !webcam then Transition(st, NoWebcam)
    else if |st.classes| < 2 then Transition(st, TooFewClasses)
    else Transition(st.(isTraining := true), TrainingStarted)
  }

  datatype TrainOutcome = NotReady | CaptureFailed | ExampleAdded

  /**
   * One call of `trainModel`: with a webcam and a truthy `currentClass`, the
   * current frame (unless capturing or embedding it throws) becomes one more
   * classifier example for that class. The success message that follows
   * calls `showMessage`, which is not in scope, and so does the catch block;
   * the call therefore never reaches its `setTimeout` and is not repeated.
   */
  function TrainModel(st: State, webcam: bool, captureFails: bool): (r: Transition<TrainOutcome>)
    ensures r.out == NotReady <==> !webcam || !IsTruthy(st.currentClass)
    ensures r.out == CaptureFailed <==> webcam && IsTruthy(st.currentClass) && captureFails
    ensures r.out == ExampleAdded ==> r.next == st.(classifier := AddExample(st.classifier, st.currentClass.value))
    ensures r.out != ExampleAdded ==> r.next == st
    ensures Inv(st) ==> Inv(r.next)
  {
    if !webcam || !IsTruthy(st.currentClass) then Transition(st, NotReady)
    else if captureFails then Transition(st, CaptureFailed)
    else Transition(st.(classifier := AddExample(st.classifier, st.currentClass.value)), ExampleAdded)
  }

  datatype PredictionResult = PredictionStopped | PredictionStarted | NotEnoughTrained

  /** The flag updates of `togglePrediction`, before its reference to the undeclared button throws. */
  function TogglePrediction(st: State): (r: Transition<PredictionResult>)
    ensures st.isPredicting ==> r.out == PredictionStopped && r.next == st.(isPredicting := false)
    ensures !st.isPredicting ==> (r.out == PredictionStarted <==> NumClasses(st.classifier) >= 2)
    ensures r.out == PredictionStarted ==> r.next == st.(isPredicting := true)
    ensures r.out == NotEnoughTrained ==> r.next == st
    ensures Inv(st) ==> Inv(r.next)
  {
    if st.isPredicting then Transition(st.(isPredicting := false), PredictionStopped)
    else if NumClasses(st.classifier) < 2 then Transition(st, NotEnoughTrained)
    else Transition(st.(isPredicting := true), PredictionStarted)
  }

  // ---------------------------------------------------------- runs

  /**
   * The user and timer events whose listeners `setupEventListeners`
   * registers (Enter in the name field is `AddClassClicked` too).
   * `togglePrediction` is attached to none.
   */
  datatype Event =
    | AddClassClicked(input: string, deleteSpanMissing: bool)
    | ClassButtonClicked(name: string)
    | DeleteClicked(name: string)
    | RecordPressed(webcam: bool)
    | FrameArrived(inferenceFails: bool)
    | RecordReleased(webcam: bool)
    | StartTrainingClicked(webcam: bool, captureFails: bool)
    | TrainClicked(webcam: bool, captureFails: bool)

  /**
   * One event; a frame arrives only while the interval runs, and is handled
   * by the callback as written or, when `asWritten` is false, as intended.
   */
  function Step(st: State, e: Event, asWritten: bool): (r: State)
    ensures Inv(st) ==> Inv(r)
    ensures !st.isPredicting ==> !r.isPredicting
  {
    match e
    case AddClassClicked(input, missing) => AddNewClass(st, input, missing).next
    case ClassButtonClicked(name) => SetCurrentClass(st, name)
    case DeleteClicked(name) => DeleteClass(st, name)
    case RecordPressed(webcam) => StartRecording(st, webcam).next
    case FrameArrived(fails) =>
      if !st.capturing || st.currentClass.None? then st
      else if asWritten then FrameAsWritten(st, fails).next
      else
        FrameKeepsInv(st, fails);
        Frame(st, fails).next
    case RecordReleased(webcam) => StopRecording(st, webcam).next
    case StartTrainingClicked(webcam, fails) =>
      var started := StartTraining(st, webcam);
      if started.out == TrainingStarted then TrainModel(started.next, webcam, fails).next else started.next
    case TrainClicked(webcam, fails) => TrainModel(st, webcam, fails).next
  }

  function Run(st: State, es: seq<Event>, asWritten: bool): State
    decreases |es|
  {
    if es == [] then st else Run(Step(st, es[0], asWritten), es[1..], asWritten)
  }

  lemma {:induction false} RunKeepsInv(st: State, es: seq<Event>, asWritten: bool)
    requires Inv(st)
    ensures Inv(Run(st, es, asWritten))
    ensures !st.isPredicting ==> !Run(st, es, asWritten).isPredicting
    decreases |es|
  {
    if es != [] {
      RunKeepsInv(Step(st, es[0], asWritten), es[1..], asWritten);
    }
  }

  /**
   * In every state the page can reach, with either frame callback, the
   * class list has no duplicates and no blank or untrimmed name, no class
   * holds more than the cap, and prediction is off: nothing that is wired
   * to an event ever sets `isPredicting`.
   */
  lemma ReachableStates(es: seq<Event>, asWritten: bool)
    ensures var st := Run(Initial, es, asWritten);
      && Inv(st)
      && NoDup(st.classes)
      && (forall c :: c in st.classes ==> c != "" && Trim(c) == c)
      && (forall k :: k in st.trainingData.vals ==> st.trainingData.vals[k] <= MaxSamplesPerClass)
      && !st.isPredicting
  {
    InitialInv();
    RunKeepsInv(Initial, es, asWritten);
  }

  /**
   * Counts of a deleted class survive and still count toward the
   * auto-predict rule: with samples for `name` and for one other class,
   * deleting `name` and releasing the record button asks for predictions
   * although `name` is gone.
   */
  lemma DeletedClassStillCounts(st: State, name: string, other: string)
    requires Inv(st) && name != other
    requires HasSamples(st.trainingData, name) && HasSamples(st.trainingData, other)
    requires !st.isPredicting
    ensures var after := DeleteClass(st, name);
      name !in after.classes && StopRecording(after, true).out
  {
    TrainedThreshold(st.trainingData);
  }
}
