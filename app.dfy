/**
 * The page script's module-level globals and its event handlers, updated
 * in place. Each handler is proved to perform exactly the transition its
 * function in `Handlers` describes, so every property proved there holds
 * of the object.
 */
module App {
  import opened Wrappers
  import opened JsStrings
  import opened JsObject
  import H = Handlers
  import CaptureStats

  class Session {
    var classes: seq<string>
    var trainingData: Obj
    var classifier: map<string, nat>  // label -> examples added to the classifier
    var isTraining: bool
    var isPredicting: bool
    var currentClass: Option<string>
    var capturing: bool

    function Snapshot(): H.State
      reads this
    {
      H.State(classes, trainingData, classifier, isTraining, isPredicting, currentClass, capturing)
    }

    ghost predicate Valid()
      reads this
    {
      H.Inv(Snapshot())
    }

    constructor ()
      ensures Valid() && Snapshot() == H.Initial
    {
      classes := [];
      trainingData := Empty;
      classifier := map[];
      isTraining := false;
      isPredicting := false;
      currentClass := None;
      capturing := false;
      H.InitialInv();
    }

    /**
     * `addNewClass` for the text `input` typed in the class-name field;
     * `deleteSpanMissing` says the new button's markup lost its delete span.
     */
    method AddNewClass(input: string, deleteSpanMissing: bool) returns (out: H.AddResult)
      requires Valid()
      modifies this
      ensures Valid()
      ensures H.Transition(Snapshot(), out) == H.AddNewClass(old(Snapshot()), input, deleteSpanMissing)
    {
      var className := Trim(input);
      if className == "" {
        return H.EmptyName;
      }
      if className in classes {
        return H.AlreadyExists;
      }
      H.AppendClassKeepsInv(Snapshot(), input);
      classes := classes + [className];
      if deleteSpanMissing {
        return H.AddedThenThrew;
      }
      if |classes| == 1 {
        SetCurrentClass(className);
      }
      out := H.Added;
    }

    /** `setCurrentClass(name)`. */
    method SetCurrentClass(name: string)
      requires Valid()
      modifies this
      ensures Valid()
      ensures Snapshot() == H.SetCurrentClass(old(Snapshot()), name)
    {
      currentClass := Some(name);
      if !IsTruthyProp(trainingData, name) {
        trainingData := Put(trainingData, name, 0);
      }
    }

    /** `deleteClass(name)`. */
    method DeleteClass(name: string)
      requires Valid()
      modifies this
      ensures Valid()
      ensures Snapshot() == H.DeleteClass(old(Snapshot()), name)
    {
      ghost var target := H.DeleteClass(Snapshot(), name);
      classes := Without(classes, name);
      if H.NumClasses(classifier) > 0 {
        classifier := map[];
        isTraining := false;
        isPredicting := false;
      }
      assert Snapshot() == target;
    }

    /** `startRecording`: the guard, then the frame interval starts. */
    method StartRecording(webcam: bool) returns (started: bool)
      requires Valid()
      modifies this
      ensures Valid()
      ensures H.Transition(Snapshot(), started) == H.StartRecording(old(Snapshot()), webcam)
    {
      if !webcam || !H.IsTruthy(currentClass) || isTraining {
        return false;
      }
      capturing := true;
      started := true;
    }

    /** One tick of the frame interval, with the cap branch stopping the recording. */
    method OnFrame(inferenceFails: bool) returns (out: H.FrameResult)
      requires Valid() && capturing
      modifies this
      ensures Valid()
      ensures H.Transition(Snapshot(), out) == H.Frame(old(Snapshot()), inferenceFails)
    {
      ghost var before := Snapshot();
      ghost var target := H.Frame(before, inferenceFails);
      H.FrameKeepsInv(before, inferenceFails);
      var c := currentClass.value;
      if !IsTruthyProp(trainingData, c) {
        trainingData := Put(trainingData, c, 0);
      }
      assert trainingData == H.WithEntry(before.trainingData, c);
      if PropLess(trainingData, c, H.MaxSamplesPerClass) {
        var n := trainingData.vals[c];
        if inferenceFails {
          out := H.InferenceFailed;
          assert Snapshot() == target.next;
          return;
        }
        classifier := H.AddExample(classifier, c);
        trainingData := Put(trainingData, c, n + 1);
        out := H.Recorded;
        assert Snapshot() == target.next;
      } else {
        assert trainingData == before.trainingData;
        var startPredicting := StopRecording(true);
        out := H.CapReached(startPredicting);
      }
    }

    /** `stopRecording`; the result is whether it goes on to start predicting. */
    method StopRecording(webcam: bool) returns (startPredicting: bool)
      requires Valid()
      modifies this
      ensures Valid()
      ensures H.Transition(Snapshot(), startPredicting) == H.StopRecording(old(Snapshot()), webcam)
    {
      if !webcam {
        return false;
      }
      capturing := false;
      var trained := H.TrainedClasses(trainingData);
      startPredicting := |trained| >= 2 && !isPredicting;
    }

    /** The checks of `startTraining`, then `isTraining = true`. */
    method StartTraining(webcam: bool) returns (out: H.TrainingResult)
      requires Valid()
      modifies this
      ensures Valid()
      ensures H.Transition(Snapshot(), out) == H.StartTraining(old(Snapshot()), webcam)
    {
      if !webcam {
        return H.NoWebcam;
      }
      if |classes| < 2 {
        return H.TooFewClasses;
      }
      isTraining := true;
      out := H.TrainingStarted;
    }

    /** One call of `trainModel`: at most one more classifier example for the current class. */
    method TrainModel(webcam: bool, captureFails: bool) returns (out: H.TrainOutcome)
      requires Valid()
      modifies this
      ensures Valid()
      ensures H.Transition(Snapshot(), out) == H.TrainModel(old(Snapshot()), webcam, captureFails)
    {
      if !webcam || !H.IsTruthy(currentClass) {
        return H.NotReady;
      }
      if captureFails {
        return H.CaptureFailed;
      }
      classifier := H.AddExample(classifier, currentClass.value);
      out := H.ExampleAdded;
    }

    /** The flag updates of `togglePrediction`. */
    method TogglePrediction() returns (out: H.PredictionResult)
      requires Valid()
      modifies this
      ensures Valid()
      ensures H.Transition(Snapshot(), out) == H.TogglePrediction(old(Snapshot()))
    {
      if isPredicting {
        isPredicting := false;
        return H.PredictionStopped;
      }
      if H.NumClasses(classifier) < 2 {
        return H.NotEnoughTrained;
      }
      isPredicting := true;
      out := H.PredictionStarted;
    }

    /** `updateCaptureStats`: the loop over `trainingData` that builds the status line. */
    method UpdateCaptureStats() returns (text: string)
      ensures text == CaptureStats.StatusText(Snapshot())
    {
      var data := trainingData;
      var order := ForInOrder(data.keys);
      var stats: seq<string> := [];
      for i := 0 to |order|
        invariant |stats| == i
        invariant forall j :: 0 <= j < i ==> stats[j] == CaptureStats.Entry(order[j], Count(data, order[j]))
      {
        var className := order[i];
        stats := stats + [CaptureStats.Entry(className, Count(data, className))];
      }
      CaptureStats.EntriesFromPointwise(data, order, stats);
      var joined := Join(stats, CaptureStats.Separator);
      text := joined;
      if text == "" {
        text := CaptureStats.NoSamplesText;
      }
      if isPredicting {
        text := text + CaptureStats.PredictingSuffix;
      }
      assert text == CaptureStats.Finish(joined, isPredicting);
    }
  }
}
