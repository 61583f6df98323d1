/** The prediction-result shaping of the trail camera classifier service:
    the JSON ranking that /classify-upload returns and the values of the HTML
    card that /upload and /classify-url render. The classifier's output
    (pred_class, pred_idx, outputs) and the label list learn.data.classes
    are inputs. */
module App {
  import opened Python
  import opened StableSort

  /** What the classifier returns for one image. predClass is str(pred_class);
      outputs are the class probabilities, positionally aligned (by the
      classifier's contract) with the label list. */
  datatype Prediction = Prediction(predClass: Label, predIdx: int, outputs: seq<real>)

  /** The JSON body {"predicted_class": ..., "class_probabilities": [[label, probability], ...]}. */
  datatype JsonBody = JsonBody(predictedClass: Label, classProbabilities: seq<Scored>)

  /** What ui_response puts into its HTML card before formatting: the image
      source, the "This is ..." label, the headline confidence and the
      "Other possibilities" pairs in display order. */
  datatype Card = Card(imageSrc: string, headline: Label, confidence: real, others: seq<Scored>)

  /** predict_image_from_bytes_as_json, after the classifier has run: every
      (label, probability) pair of the zip, sorted stably by descending
      probability, and the predicted label as reported by the classifier. */
  function PredictAsJson(classes: seq<Label>, p: Prediction): (r: JsonBody)
    ensures r.predictedClass == p.predClass
    ensures |r.classProbabilities| == Min(|classes|, |p.outputs|)
    ensures IsStableSortDesc(Zip(classes, p.outputs), r.classProbabilities)
  {
    var pairs := Zip(classes, p.outputs);
    SortDescIsStableSort(pairs);
    JsonBody(p.predClass, SortDesc(pairs))
  }

  /** The JSON ranking is unfiltered: every zipped pair, the predicted label's
      included, occurs in it. */
  lemma JsonKeepsEveryPair(classes: seq<Label>, p: Prediction, i: nat)
    requires i < Min(|classes|, |p.outputs|)
    ensures (classes[i], p.outputs[i]) in PredictAsJson(classes, p).classProbabilities
  {
    var z := Zip(classes, p.outputs);
    assert z[i] in multiset(z);
  }

  /** The first entry of a non-empty JSON ranking has the largest probability. */
  lemma JsonTopIsMax(classes: seq<Label>, p: Prediction, i: nat)
    requires i < Min(|classes|, |p.outputs|)
    ensures PredictAsJson(classes, p).classProbabilities[0].1 >= p.outputs[i]
  {
    var ranking := PredictAsJson(classes, p).classProbabilities;
    JsonKeepsEveryPair(classes, p, i);
    var j :| 0 <= j < |ranking| && ranking[j] == (classes[i], p.outputs[i]);
    assert j == 0 || ranking[0].1 >= ranking[j].1;
  }

  /** Lines 52-54 of ui_response: probs = dict(zip(classes, outputs)), then
      probs.pop(pred_class), then the remaining items in dict order. */
  function Others(classes: seq<Label>, outputs: seq<real>, predClass: Label): (r: Result<seq<Scored>>)
    ensures var z := Zip(classes, outputs);
            r.Err? <==> Find(z, predClass) == |z|
    ensures r.Err? ==> r.error == KeyError(predClass)
    ensures r.Ok? ==> DistinctKeys(r.value)
  {
    var z := Zip(classes, outputs);
    FromPairsLastWins(z, predClass);
    match Pop(FromPairs(z), predClass)
    case Err(e) => Err(e)
    case Ok((_, rest)) => Ok(rest)
  }

  /** Each label listed among the "other possibilities" carries the value the
      dict gave it (the last zipped probability for that label); the
      predicted label is not listed. */
  lemma OthersLookup(classes: seq<Label>, outputs: seq<real>, predClass: Label, k: Label)
    requires Others(classes, outputs, predClass).Ok?
    ensures var z := Zip(classes, outputs);
            Get(Others(classes, outputs, predClass).value, k)
            == if k == predClass then None else LastValue(z, k)
  {
    var z := Zip(classes, outputs);
    GetWithout(FromPairs(z), predClass, k);
    FromPairsLastWins(z, k);
  }

  /** With distinct labels, the "Other possibilities" are the zipped pairs
      with the predicted one taken out, in label-list order, not by
      probability. */
  lemma {:induction false} OthersInLabelOrder(classes: seq<Label>, outputs: seq<real>, i: nat)
    requires Distinct(classes)
    requires i < Min(|classes|, |outputs|)
    ensures var z := Zip(classes, outputs);
            Others(classes, outputs, classes[i]) == Ok(z[..i] + z[i + 1..])
    ensures |Others(classes, outputs, classes[i]).value| == Min(|classes|, |outputs|) - 1
  {
    var z := Zip(classes, outputs);
    assert DistinctKeys(z);
    FromDistinctPairs(z);
    FindIs(z, classes[i], i);
    WithoutAt(z, i);
  }

  /** ui_response: the card for a prediction, or the KeyError of line 53 when
      the predicted label is not among the zipped labels, or the IndexError of
      outputs[pred_idx] at line 76. */
  function UiResponse(classes: seq<Label>, p: Prediction, imageSrc: string): (r: Result<Card>)
    ensures var others := Others(classes, p.outputs, p.predClass);
            others.Err? ==> r == Err(KeyError(p.predClass))
    ensures var others := Others(classes, p.outputs, p.predClass);
            others.Ok? ==> (r.Ok? <==> -|p.outputs| <= p.predIdx < |p.outputs|)
    ensures var others := Others(classes, p.outputs, p.predClass);
            others.Ok? && !(-|p.outputs| <= p.predIdx < |p.outputs|) ==> r == Err(IndexError(p.predIdx))
    ensures r.Err? && r.error.IndexError? ==> r.error.index == p.predIdx
    ensures r.Ok? ==> r.value.imageSrc == imageSrc && r.value.headline == p.predClass
    ensures r.Ok? ==> r.value.others == Others(classes, p.outputs, p.predClass).value
    ensures r.Ok? && p.predIdx >= 0 ==> r.value.confidence == p.outputs[p.predIdx]
    ensures r.Ok? && p.predIdx < 0 ==> r.value.confidence == p.outputs[|p.outputs| + p.predIdx]
  {
    match Others(classes, p.outputs, p.predClass)
    case Err(e) => Err(e)
    case Ok(others) =>
      match Index(p.outputs, p.predIdx)
      case Err(e) => Err(e)
      case Ok(confidence) => Ok(Card(imageSrc, p.predClass, confidence, others))
  }

  /** When the classifier's index and label agree and the labels are
      distinct, the headline confidence read from the raw vector is the value
      that was popped from the dict, and the card lists the other n-1 labels. */
  lemma HeadlineMatchesPopped(classes: seq<Label>, p: Prediction, imageSrc: string)
    requires Distinct(classes)
    requires 0 <= p.predIdx < Min(|classes|, |p.outputs|)
    requires classes[p.predIdx] == p.predClass
    ensures var r := UiResponse(classes, p, imageSrc);
            && r.Ok?
            && Get(FromPairs(Zip(classes, p.outputs)), p.predClass) == Some(r.value.confidence)
            && |r.value.others| == Min(|classes|, |p.outputs|) - 1
  {
    var z := Zip(classes, p.outputs);
    assert DistinctKeys(z);
    FromDistinctPairs(z);
    FindIs(z, p.predClass, p.predIdx);
    OthersInLabelOrder(classes, p.outputs, p.predIdx);
  }

  /** The worked example: "deer" predicted at index 1 among boar, deer and
      other, with probabilities 0.1, 0.7 and 0.2. */
  predicate IsExample(classes: seq<Label>, p: Prediction) {
    classes == ["boar", "deer", "other"] && p == Prediction("deer", 1, [0.1, 0.7, 0.2])
  }

  lemma ExampleZip(classes: seq<Label>, p: Prediction)
    requires IsExample(classes, p)
    ensures Zip(classes, p.outputs) == [("boar", 0.1), ("deer", 0.7), ("other", 0.2)]
  {
  }

  lemma ExampleSort(s: seq<Scored>)
    requires s == [("boar", 0.1), ("deer", 0.7), ("other", 0.2)]
    ensures SortDesc(s) == [("deer", 0.7), ("other", 0.2), ("boar", 0.1)]
  {
    var boar, deer, other := s[0], s[1], s[2];
    var none: seq<Scored> := [];
    assert SortDesc([other]) == [other] by {
      assert [other][1..] == none;
    }
    assert SortDesc([deer, other]) == [deer, other] by {
      assert [deer, other][1..] == [other];
    }
    assert Insert(boar, [deer, other]) == [deer, other, boar] by {
      assert [deer, other][1..] == [other];
      assert Insert(boar, [other]) == [other, boar] by {
        assert [other][1..] == none;
      }
    }
    assert s[1..] == [deer, other];
  }

  /** The JSON ranking of the example: descending probability, with the
      predicted class kept. */
  lemma ScenarioJson(classes: seq<Label>, p: Prediction)
    requires IsExample(classes, p)
    ensures PredictAsJson(classes, p)
         == JsonBody("deer", [("deer", 0.7), ("other", 0.2), ("boar", 0.1)])
  {
    ExampleZip(classes, p);
    ExampleSort(Zip(classes, p.outputs));
  }

  /** The HTML card of the example: the other labels come in label-list
      order, so the less likely "boar" precedes "other". */
  lemma ScenarioHtml(classes: seq<Label>, p: Prediction, imageSrc: string)
    requires IsExample(classes, p)
    ensures UiResponse(classes, p, imageSrc)
         == Ok(Card(imageSrc, "deer", 0.7, [("boar", 0.1), ("other", 0.2)]))
  {
    var z := Zip(classes, p.outputs);
    assert Distinct(classes);
    assert classes[1] == p.predClass;
    assert Others(classes, p.outputs, p.predClass) == Ok(z[..1] + z[2..]) by {
      OthersInLabelOrder(classes, p.outputs, 1);
    }
    assert z[..1] + z[2..] == [("boar", 0.1), ("other", 0.2)] by {
      ExampleZip(classes, p);
    }
  }
}
