/**
 * What the detector makes of one frame's inference output. Each detection
 * row is reduced to whether its score passed the 0.5 threshold and its class
 * id (`int(classes[0][i])`); the scores, boxes and tensors themselves are
 * floating-point data that is not modelled.
 */
module PersonDetection {
  import opened Labels

  datatype Detection = Detection(confident: bool, classId: int)

  /** A detection the lift counts as a person: confident, and its class named "person". */
  predicate IsPerson(d: Detection, labels: LabelDict) {
    d.confident && Lookup(labels, d.classId) == "person"
  }

  /** A detection is a person only through the label file: the "unknown" fallback never is one. */
  lemma IsPersonLabelled(d: Detection, labels: LabelDict)
    ensures IsPerson(d, labels) <==> d.confident && d.classId in labels && labels[d.classId] == "person"
  {
    LookupNamed(labels, d.classId, "person");
  }

  /**
   * The for/else scan of `detect_person` over the first `numDetections`
   * rows: true at the first confident row labelled "person", false when the
   * loop runs out, including when there are no rows at all.
   */
  method DetectPerson(detections: seq<Detection>, numDetections: nat, labels: LabelDict) returns (personDetected: bool)
    requires numDetections <= |detections|
    ensures personDetected <==> exists i :: 0 <= i < numDetections && IsPerson(detections[i], labels)
  {
    for i := 0 to numDetections
      invariant forall j :: 0 <= j < i ==> !IsPerson(detections[j], labels)
    {
      var d := detections[i];
      if d.confident {
        var labelStr := Lookup(labels, d.classId);
        if labelStr == "person" {
          return true;
        }
      }
    }
    return false;
  }

  /**
   * The detector's shared state: the latest decision, read by the lift after
   * every transit, and the flag that ends the frame loop.
   */
  class ObjectDetection {
    var personDetected: bool
    var stopped: bool

    constructor ()
      ensures !personDetected && !stopped
    {
      personDetected := false;
      stopped := false;
    }

    /** One pass of the frame loop: the decision is replaced by that of the new frame. */
    method ScanFrame(detections: seq<Detection>, numDetections: nat, labels: LabelDict)
      requires numDetections <= |detections|
      modifies this
      ensures personDetected <==> exists i :: 0 <= i < numDetections && IsPerson(detections[i], labels)
      ensures stopped == old(stopped)
    {
      personDetected := DetectPerson(detections, numDetections, labels);
    }

    method StopDetection()
      modifies this
      ensures stopped && personDetected == old(personDetected)
    {
      stopped := true;
    }
  }

  /** A label drawn on the frame: the detection's row and the text written beside it. */
  datatype Shown = Shown(index: nat, text: string)

  /** The labels drawn for the first `n` rows: one per confident row, in row order. */
  function Labelled(detections: seq<Detection>, n: nat, labels: LabelDict): seq<Shown>
    requires n <= |detections|
  {
    if n == 0 then []
    else
      var d := detections[n - 1];
      Labelled(detections, n - 1, labels) + (if d.confident then [Shown(n - 1, Lookup(labels, d.classId))] else [])
  }

  /** Every label belongs to a confident row among the first `n` and carries that row's looked-up name. */
  predicate LabelsConfidentRows(shown: seq<Shown>, detections: seq<Detection>, n: nat, labels: LabelDict)
    requires n <= |detections|
  {
    forall k :: 0 <= k < |shown| ==>
      && shown[k].index < n
      && detections[shown[k].index].confident
      && shown[k].text == Lookup(labels, detections[shown[k].index].classId)
  }

  /** The labels follow the row order, no row twice. */
  predicate InRowOrder(shown: seq<Shown>) {
    forall k, l :: 0 <= k < l < |shown| ==> shown[k].index < shown[l].index
  }

  /** Row `i` has a label. */
  predicate LabelsRow(shown: seq<Shown>, i: nat) {
    exists k :: 0 <= k < |shown| && shown[k].index == i
  }

  lemma {:induction false} LabelledRows(detections: seq<Detection>, n: nat, labels: LabelDict)
    requires n <= |detections|
    ensures LabelsConfidentRows(Labelled(detections, n, labels), detections, n, labels)
  {
    if n > 0 {
      LabelledRows(detections, n - 1, labels);
      var before, d := Labelled(detections, n - 1, labels), detections[n - 1];
      var shown := Labelled(detections, n, labels);
      if d.confident {
        assert shown == before + [Shown(n - 1, Lookup(labels, d.classId))];
        forall k | 0 <= k < |shown|
          ensures shown[k].index < n && detections[shown[k].index].confident
          ensures shown[k].text == Lookup(labels, detections[shown[k].index].classId)
        {
          if k < |before| { assert shown[k] == before[k]; }
        }
      } else {
        assert shown == before + [];
      }
    }
  }

  lemma {:induction false} LabelledOrdered(detections: seq<Detection>, n: nat, labels: LabelDict)
    requires n <= |detections|
    ensures InRowOrder(Labelled(detections, n, labels))
  {
    if n > 0 {
      LabelledOrdered(detections, n - 1, labels);
      LabelledRows(detections, n - 1, labels);
      var before, d := Labelled(detections, n - 1, labels), detections[n - 1];
      var shown := Labelled(detections, n, labels);
      if d.confident {
        assert shown == before + [Shown(n - 1, Lookup(labels, d.classId))];
        forall k, l | 0 <= k < l < |shown| ensures shown[k].index < shown[l].index {
          assert shown[k] == before[k];
          if l < |before| { assert shown[l] == before[l]; }
        }
      } else {
        assert shown == before + [];
      }
    }
  }

  lemma {:induction false} LabelledComplete(detections: seq<Detection>, n: nat, labels: LabelDict, i: nat)
    requires n <= |detections| && i < n && detections[i].confident
    ensures LabelsRow(Labelled(detections, n, labels), i)
  {
    var before, d := Labelled(detections, n - 1, labels), detections[n - 1];
    var shown := Labelled(detections, n, labels);
    if i < n - 1 {
      LabelledComplete(detections, n - 1, labels, i);
      var k :| 0 <= k < |before| && before[k].index == i;
      if d.confident {
        assert shown == before + [Shown(n - 1, Lookup(labels, d.classId))];
      } else {
        assert shown == before + [];
      }
      assert shown[k] == before[k];
    } else {
      assert shown == before + [Shown(n - 1, Lookup(labels, d.classId))];
      assert shown[|before|].index == i;
    }
  }

  /**
   * What the labelling loop draws: exactly the confident rows among the
   * first `n`, in row order, each with its class name or "unknown".
   */
  lemma LabelledShape(detections: seq<Detection>, n: nat, labels: LabelDict)
    requires n <= |detections|
    ensures LabelsConfidentRows(Labelled(detections, n, labels), detections, n, labels)
    ensures InRowOrder(Labelled(detections, n, labels))
    ensures forall i :: 0 <= i < n && detections[i].confident ==> LabelsRow(Labelled(detections, n, labels), i)
  {
    LabelledRows(detections, n, labels);
    LabelledOrdered(detections, n, labels);
    forall i | 0 <= i < n && detections[i].confident ensures LabelsRow(Labelled(detections, n, labels), i) {
      LabelledComplete(detections, n, labels, i);
    }
  }

  /**
   * The labelling loop of ssd_camera.py: every confident row among the first
   * `numDetections` is labelled, in row order, with its class name or
   * "unknown"; no other row is.
   */
  method LabelDetections(detections: seq<Detection>, numDetections: nat, labels: LabelDict) returns (shown: seq<Shown>)
    requires numDetections <= |detections|
    ensures shown == Labelled(detections, numDetections, labels)
  {
    shown := [];
    for i := 0 to numDetections
      invariant shown == Labelled(detections, i, labels)
    {
      var d := detections[i];
      if d.confident {
        var labelStr := Lookup(labels, d.classId);
        shown := shown + [Shown(i, labelStr)];
      }
    }
  }

  /** Some label drawn on the frame reads "person". */
  predicate ShowsPerson(shown: seq<Shown>) {
    exists k :: 0 <= k < |shown| && shown[k].text == "person"
  }

  /** Some row among the first `n` is a person. */
  predicate SomePerson(detections: seq<Detection>, n: nat, labels: LabelDict)
    requires n <= |detections|
  {
    exists i :: 0 <= i < n && IsPerson(detections[i], labels)
  }

  /**
   * The camera view and the lift agree: a "person" label is drawn on a frame
   * exactly when the lift's scan of the same rows reports a person.
   */
  lemma PersonShownIffDetected(detections: seq<Detection>, n: nat, labels: LabelDict)
    requires n <= |detections|
    ensures ShowsPerson(Labelled(detections, n, labels)) <==> SomePerson(detections, n, labels)
  {
    var shown := Labelled(detections, n, labels);
    if SomePerson(detections, n, labels) {
      var i :| 0 <= i < n && IsPerson(detections[i], labels);
      LabelledComplete(detections, n, labels, i);
      LabelledRows(detections, n, labels);
      var k :| 0 <= k < |shown| && shown[k].index == i;
      assert shown[k].text == "person";
    }
    if ShowsPerson(shown) {
      var k :| 0 <= k < |shown| && shown[k].text == "person";
      LabelledRows(detections, n, labels);
      var i := shown[k].index;
      assert 0 <= i < n && IsPerson(detections[i], labels);
    }
  }
}
