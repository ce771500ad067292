/** The features of the input polygon layer as the test reads them, and the
    loop that extracts the expected values, observed values and labels. */
module Features {
  import opened Filtering

  /** An attribute value as the host application hands it to the script. */
  datatype FieldValue =
    | Int(i: int)
    | Float(x: real)
    | Bool(b: bool)      // a subclass of int in Python, so it counts as numeric
    | Text(s: string)
    | Null
    | Other              // dates, blobs and every other non-numeric attribute type

  /** One feature reduced to the three fields the test asks for. */
  datatype Feature = Feature(expected: FieldValue, observed: FieldValue, theme: FieldValue)

  /** An instance of int or float. */
  predicate IsNumeric(v: FieldValue) {
    v.Int? || v.Float? || v.Bool?
  }

  /** Python's float() of a numeric attribute value. */
  function ToReal(v: FieldValue): real
    requires IsNumeric(v)
  {
    match v
    case Int(i) => i as real
    case Float(x) => x
    case Bool(b) => if b then 1.0 else 0.0
  }

  /** A feature contributes to the test when both of its values are numeric. */
  predicate Kept(f: Feature) {
    IsNumeric(f.expected) && IsNumeric(f.observed)
  }

  /** Positions of the contributing features, in layer order. */
  function KeptIndices(fs: seq<Feature>): seq<nat> {
    Positions(fs, Kept)
  }

  /** The expected column as extracted: one value per contributing feature. */
  function ExpectedOf(fs: seq<Feature>): (r: seq<real>)
    ensures |r| == |KeptIndices(fs)|
  {
    if fs == [] then []
    else
      var f := fs[|fs| - 1];
      ExpectedOf(fs[..|fs| - 1]) + (if Kept(f) then [ToReal(f.expected)] else [])
  }

  /** The observed column as extracted: one value per contributing feature. */
  function ObservedOf(fs: seq<Feature>): (r: seq<real>)
    ensures |r| == |KeptIndices(fs)|
  {
    if fs == [] then []
    else
      var f := fs[|fs| - 1];
      ObservedOf(fs[..|fs| - 1]) + (if Kept(f) then [ToReal(f.observed)] else [])
  }

  /** The label column as extracted: the label of every feature, filtered or not. */
  function Labels(fs: seq<Feature>): (r: seq<FieldValue>)
    ensures |r| == |fs|
    ensures forall i :: 0 <= i < |fs| ==> r[i] == fs[i].theme
  {
    if fs == [] then [] else Labels(fs[..|fs| - 1]) + [fs[|fs| - 1].theme]
  }

  /** The label column the later pairing with residuals needs: one label per
      contributing feature, the corrected form of Labels. */
  function KeptLabels(fs: seq<Feature>): (r: seq<FieldValue>)
    ensures |r| == |KeptIndices(fs)|
  {
    if fs == [] then []
    else
      var f := fs[|fs| - 1];
      KeptLabels(fs[..|fs| - 1]) + (if Kept(f) then [f.theme] else [])
  }

  /** Entry k of the expected and the observed column both come from the k-th
      contributing feature: a feature enters both columns or neither. */
  lemma {:induction false} ColumnsFromKeptFeatures(fs: seq<Feature>)
    ensures |ExpectedOf(fs)| == |ObservedOf(fs)| == |KeptIndices(fs)|
    ensures forall k :: 0 <= k < |KeptIndices(fs)| ==>
      ExpectedOf(fs)[k] == ToReal(fs[KeptIndices(fs)[k]].expected) &&
      ObservedOf(fs)[k] == ToReal(fs[KeptIndices(fs)[k]].observed)
  {
    if fs != [] {
      var init, last := fs[..|fs| - 1], fs[|fs| - 1];
      ColumnsFromKeptFeatures(init);
      var idx := KeptIndices(init);
      assert KeptIndices(fs) == idx + (if Kept(last) then [|fs| - 1] else []);
      assert ExpectedOf(fs) == ExpectedOf(init) + (if Kept(last) then [ToReal(last.expected)] else []);
      assert ObservedOf(fs) == ObservedOf(init) + (if Kept(last) then [ToReal(last.observed)] else []);
      forall k | 0 <= k < |KeptIndices(fs)|
        ensures ExpectedOf(fs)[k] == ToReal(fs[KeptIndices(fs)[k]].expected)
        ensures ObservedOf(fs)[k] == ToReal(fs[KeptIndices(fs)[k]].observed)
      {
        if k < |idx| {
          assert fs[idx[k]] == init[idx[k]];
        }
      }
    }
  }

  /** Entry k of the corrected label column is the label of the k-th
      contributing feature, and there are as many labels as values. */
  lemma {:induction false} KeptLabelsAligned(fs: seq<Feature>)
    ensures |KeptLabels(fs)| == |KeptIndices(fs)|
    ensures forall k :: 0 <= k < |KeptIndices(fs)| ==> KeptLabels(fs)[k] == fs[KeptIndices(fs)[k]].theme
  {
    if fs != [] {
      var init := fs[..|fs| - 1];
      KeptLabelsAligned(init);
      var idx := KeptIndices(init);
      forall k | 0 <= k < |idx| ensures fs[idx[k]] == init[idx[k]] { }
    }
  }

  /** When no feature is filtered out the two label columns agree, so the
      misalignment of labels and residuals needs a non-numeric value. */
  lemma {:induction false} LabelsAgreeWithoutFiltering(fs: seq<Feature>)
    requires forall i :: 0 <= i < |fs| ==> Kept(fs[i])
    ensures KeptLabels(fs) == Labels(fs)
  {
    if fs != [] {
      var init := fs[..|fs| - 1];
      LabelsAgreeWithoutFiltering(init);
    }
  }

  /** The extraction loop over the layer's features. It appends the label of
      every feature, and the two values only when both are numeric. */
  method Extract(features: seq<Feature>) returns (expected: seq<real>, observed: seq<real>, labels: seq<FieldValue>)
    ensures expected == ExpectedOf(features) && observed == ObservedOf(features)
    ensures labels == Labels(features)
    ensures |expected| == |observed| == |KeptIndices(features)| <= |labels| == |features|
    ensures forall k :: 0 <= k < |expected| ==>
      expected[k] == ToReal(features[KeptIndices(features)[k]].expected) &&
      observed[k] == ToReal(features[KeptIndices(features)[k]].observed)
  {
    expected, observed, labels := [], [], [];
    var i := 0;
    while i < |features|
      invariant 0 <= i <= |features|
      invariant expected == ExpectedOf(features[..i])
      invariant observed == ObservedOf(features[..i])
      invariant labels == Labels(features[..i])
    {
      var feature := features[i];
      assert features[..i + 1][..i] == features[..i];
      labels := labels + [feature.theme];
      if IsNumeric(feature.expected) && IsNumeric(feature.observed) {
        expected := expected + [ToReal(feature.expected)];
        observed := observed + [ToReal(feature.observed)];
      }
      i := i + 1;
    }
    assert features[..i] == features;
    ColumnsFromKeptFeatures(features);
  }
}
