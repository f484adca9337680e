/** The list of (image, label) file pairs a connector holds, and the list operations the
    connector applies to it: the positional pairing of its constructor, `itertools.compress` as
    used by `split`, and the filter of `filter_labeled`. A missing label (or image) is `None`. */
module FilePairs {
  import opened Wrappers

  /** `FilePair(img, lbl)`: an image file name and the name of its label file, if any. */
  datatype FilePair = FilePair(img: Option<string>, lbl: Option<string>)

  function Min(a: nat, b: nat): nat {
    if a <= b then a else b
  }

  /** `[FilePair(img, lbl) for img, lbl in zip(imgs, lbls)]`: `zip` stops at the shorter list. */
  function Zip(imgs: seq<Option<string>>, lbls: seq<Option<string>>): (r: seq<FilePair>)
    ensures |r| == Min(|imgs|, |lbls|)
    ensures forall i | 0 <= i < |r| :: r[i] == FilePair(imgs[i], lbls[i])
  {
    if imgs == [] || lbls == [] then []
    else [FilePair(imgs[0], lbls[0])] + Zip(imgs[1..], lbls[1..])
  }

  /** The image names of the pairs, in order. */
  function Images(ps: seq<FilePair>): (r: seq<Option<string>>)
    ensures |r| == |ps|
  {
    seq(|ps|, i requires 0 <= i < |ps| => ps[i].img)
  }

  /** The label names of the pairs, in order; a missing label stays `None`. */
  function Labels(ps: seq<FilePair>): (r: seq<Option<string>>)
    ensures |r| == |ps|
  {
    seq(|ps|, i requires 0 <= i < |ps| => ps[i].lbl)
  }

  /** Unzipping a list of pairs and zipping it again gives the same list back. */
  lemma ZipUnzip(ps: seq<FilePair>)
    ensures Zip(Images(ps), Labels(ps)) == ps
  {
    var z := Zip(Images(ps), Labels(ps));
    assert |z| == |ps|;
    forall i | 0 <= i < |ps| ensures z[i] == ps[i] {
    }
  }

  /** Zipping two lists of equal length and unzipping the result gives both lists back; with a
      longer image list the extra images are dropped. */
  lemma UnzipZip(imgs: seq<Option<string>>, lbls: seq<Option<string>>)
    ensures Images(Zip(imgs, lbls)) == imgs[..Min(|imgs|, |lbls|)]
    ensures Labels(Zip(imgs, lbls)) == lbls[..Min(|imgs|, |lbls|)]
  {
  }

  /** `itertools.compress(xs, mask)`: the elements whose mask entry is true, in order; it stops
      at the end of the shorter argument. */
  function Compress<T>(xs: seq<T>, mask: seq<bool>): (r: seq<T>)
    ensures |r| <= |xs|
  {
    if xs == [] || mask == [] then []
    else (if mask[0] then [xs[0]] else []) + Compress(xs[1..], mask[1..])
  }

  /** Every element `compress` keeps comes from the list. */
  lemma {:induction false} CompressElements<T>(xs: seq<T>, mask: seq<bool>)
    ensures forall x | x in Compress(xs, mask) :: x in xs
  {
    if xs != [] && mask != [] {
      CompressElements(xs[1..], mask[1..]);
      assert forall x | x in xs[1..] :: x in xs;
    }
  }

  /** `~mask` on a boolean numpy array. */
  function Negate(mask: seq<bool>): (r: seq<bool>)
    ensures |r| == |mask|
    ensures forall i | 0 <= i < |r| :: r[i] == !mask[i]
  {
    seq(|mask|, i requires 0 <= i < |mask| => !mask[i])
  }

  /** Number of true entries. */
  function Trues(mask: seq<bool>): nat {
    if mask == [] then 0 else (if mask[0] then 1 else 0) + Trues(mask[1..])
  }

  /** Every index shifted by one. */
  function Shift(idx: seq<nat>): (r: seq<nat>)
    ensures |r| == |idx|
    ensures forall k | 0 <= k < |r| :: r[k] == idx[k] + 1
  {
    seq(|idx|, k requires 0 <= k < |idx| => idx[k] + 1)
  }

  /** Reference definition of a mask: the ascending list of the indices where it is true. */
  function TrueIndices(mask: seq<bool>): (r: seq<nat>)
    ensures forall i :: i in r <==> 0 <= i < |mask| && mask[i]
    ensures forall k, l | 0 <= k < l < |r| :: r[k] < r[l]
    ensures |r| == Trues(mask)
  {
    if mask == [] then []
    else
      var tail := TrueIndices(mask[1..]);
      TrueIndicesStep(mask, tail);
      (if mask[0] then [0] else []) + Shift(tail)
  }

  /** The indices of the tail, shifted by one and preceded by 0 when the head is true, are the
      indices of the whole mask. */
  lemma TrueIndicesStep(mask: seq<bool>, tail: seq<nat>)
    requires mask != []
    requires forall i :: i in tail <==> 0 <= i < |mask| - 1 && mask[1..][i]
    requires forall k, l | 0 <= k < l < |tail| :: tail[k] < tail[l]
    requires |tail| == Trues(mask[1..])
    ensures var r := (if mask[0] then [0] else []) + Shift(tail);
      (forall i :: i in r <==> 0 <= i < |mask| && mask[i]) &&
      (forall k, l | 0 <= k < l < |r| :: r[k] < r[l]) &&
      |r| == Trues(mask)
  {
    var rest := Shift(tail);
    var r := (if mask[0] then [0] else []) + rest;
    forall i ensures i in rest <==> 1 <= i < |mask| && mask[i] {
      if 1 <= i < |mask| && mask[i] {
        assert mask[1..][i - 1] == mask[i];
        assert i - 1 in tail;
        var k :| 0 <= k < |tail| && tail[k] == i - 1;
        assert rest[k] == i;
      }
      if i in rest {
        var k :| 0 <= k < |rest| && rest[k] == i;
        assert tail[k] in tail;
        assert mask[1..][i - 1] == mask[i];
      }
    }
    forall i ensures i in r <==> 0 <= i < |mask| && mask[i] {
      assert i in r <==> (mask[0] && i == 0) || i in rest;
    }
    forall k, l | 0 <= k < l < |r| ensures r[k] < r[l] {
      if mask[0] && k == 0 {
        assert r[l] == rest[l - 1] == tail[l - 1] + 1;
      }
    }
  }

  /** The elements at the given indices, in the order of the indices. */
  function Pick<T>(xs: seq<T>, idx: seq<nat>): (r: seq<T>)
    requires forall k | 0 <= k < |idx| :: idx[k] < |xs|
    ensures |r| == |idx|
    ensures forall k | 0 <= k < |r| :: r[k] == xs[idx[k]]
  {
    seq(|idx|, k requires 0 <= k < |idx| => xs[idx[k]])
  }

  lemma PickShift<T>(xs: seq<T>, idx: seq<nat>)
    requires xs != []
    requires forall k | 0 <= k < |idx| :: idx[k] < |xs| - 1
    ensures forall k | 0 <= k < |Shift(idx)| :: Shift(idx)[k] < |xs|
    ensures Pick(xs, Shift(idx)) == Pick(xs[1..], idx)
  {
  }

  lemma PickCons<T>(xs: seq<T>, idx: seq<nat>)
    requires xs != []
    requires forall k | 0 <= k < |idx| :: idx[k] < |xs|
    ensures Pick(xs, [0] + idx) == [xs[0]] + Pick(xs, idx)
  {
  }

  lemma TrueIndicesBound(mask: seq<bool>)
    ensures forall k | 0 <= k < |TrueIndices(mask)| :: TrueIndices(mask)[k] < |mask|
  {
    var t := TrueIndices(mask);
    forall k | 0 <= k < |t| ensures t[k] < |mask| {
      assert t[k] in t;
    }
  }

  lemma CompressCons<T>(xs: seq<T>, mask: seq<bool>)
    requires xs != [] && mask != []
    ensures Compress(xs, mask) == (if mask[0] then [xs[0]] else []) + Compress(xs[1..], mask[1..])
  {
  }

  lemma TrueIndicesCons(mask: seq<bool>)
    requires mask != []
    ensures TrueIndices(mask) == (if mask[0] then [0] else []) + Shift(TrueIndices(mask[1..]))
  {
  }

  /** `compress` keeps exactly the elements at the true indices of the mask, in their original
      order. */
  lemma {:induction false} CompressByIndices<T>(xs: seq<T>, mask: seq<bool>)
    requires |mask| == |xs|
    ensures forall k | 0 <= k < |TrueIndices(mask)| :: TrueIndices(mask)[k] < |xs|
    ensures Compress(xs, mask) == Pick(xs, TrueIndices(mask))
  {
    TrueIndicesBound(mask);
    if xs != [] {
      var tail := TrueIndices(mask[1..]);
      TrueIndicesBound(mask[1..]);
      CompressByIndices(xs[1..], mask[1..]);
      CompressCons(xs, mask);
      TrueIndicesCons(mask);
      PickShift(xs, tail);
      if mask[0] {
        PickCons(xs, Shift(tail));
      }
    }
  }

  lemma NegateTail(mask: seq<bool>)
    requires mask != []
    ensures Negate(mask)[1..] == Negate(mask[1..])
  {
  }

  /** The elements kept under `mask` and those kept under `~mask` together are the original list:
      `split` partitions the pairs. */
  lemma {:induction false} CompressPartition<T>(xs: seq<T>, mask: seq<bool>)
    requires |mask| == |xs|
    ensures multiset(Compress(xs, mask)) + multiset(Compress(xs, Negate(mask))) == multiset(xs)
  {
    if xs != [] {
      var neg := Negate(mask);
      NegateTail(mask);
      CompressPartition(xs[1..], mask[1..]);
      CompressCons(xs, mask);
      CompressCons(xs, neg);
      MultisetCons(xs);
    }
  }

  lemma MultisetCons<T>(xs: seq<T>)
    requires xs != []
    ensures multiset(xs) == multiset([xs[0]]) + multiset(xs[1..])
  {
    assert xs == [xs[0]] + xs[1..];
  }

  /** The first part has one element per true mask entry, and the two parts together are as long
      as the list. */
  lemma {:induction false} CompressSizes<T>(xs: seq<T>, mask: seq<bool>)
    requires |mask| == |xs|
    ensures |Compress(xs, mask)| == Trues(mask)
    ensures |Compress(xs, mask)| + |Compress(xs, Negate(mask))| == |xs|
  {
    if xs != [] {
      NegateTail(mask);
      CompressSizes(xs[1..], mask[1..]);
      CompressCons(xs, mask);
      CompressCons(xs, Negate(mask));
    }
  }

  lemma LabelsAppend(a: seq<FilePair>, b: seq<FilePair>)
    ensures Labels(a + b) == Labels(a) + Labels(b)
  {
  }

  lemma ImagesAppend(a: seq<FilePair>, b: seq<FilePair>)
    ensures Images(a + b) == Images(a) + Images(b)
  {
  }

  /** Compressing the pairs and then taking their labels is compressing the labels: a kept pair
      keeps its label, `None` included. */
  lemma {:induction false} CompressLabels(ps: seq<FilePair>, mask: seq<bool>)
    ensures Labels(Compress(ps, mask)) == Compress(Labels(ps), mask)
  {
    if ps != [] && mask != [] {
      CompressLabels(ps[1..], mask[1..]);
      assert Labels(ps)[1..] == Labels(ps[1..]);
      LabelsAppend(if mask[0] then [ps[0]] else [], Compress(ps[1..], mask[1..]));
    }
  }

  /** The same for the image names. */
  lemma {:induction false} CompressImages(ps: seq<FilePair>, mask: seq<bool>)
    ensures Images(Compress(ps, mask)) == Compress(Images(ps), mask)
  {
    if ps != [] && mask != [] {
      CompressImages(ps[1..], mask[1..]);
      assert Images(ps)[1..] == Images(ps[1..]);
      ImagesAppend(if mask[0] then [ps[0]] else [], Compress(ps[1..], mask[1..]));
    }
  }

  /** The mask of `filter_labeled`: true where the pair has a label. */
  function HasLabel(ps: seq<FilePair>): (r: seq<bool>)
    ensures |r| == |ps|
    ensures forall i | 0 <= i < |r| :: r[i] == ps[i].lbl.Some?
  {
    seq(|ps|, i requires 0 <= i < |ps| => ps[i].lbl.Some?)
  }

  /** The pairs of `filter_labeled`: those whose label is not None, in order. */
  function Labeled(ps: seq<FilePair>): (r: seq<FilePair>)
    ensures forall p :: p in r <==> p in ps && p.lbl.Some?
    ensures |r| <= |ps|
  {
    if ps == [] then []
    else (if ps[0].lbl.Some? then [ps[0]] else []) + Labeled(ps[1..])
  }

  /** `filter_labeled` is `compress` under the has-label mask, so it keeps the labelled pairs at
      their true indices in their original order. */
  lemma {:induction false} LabeledIsCompress(ps: seq<FilePair>)
    ensures Labeled(ps) == Compress(ps, HasLabel(ps))
  {
    if ps != [] {
      assert HasLabel(ps)[1..] == HasLabel(ps[1..]);
      LabeledIsCompress(ps[1..]);
    }
  }

  /** Filtering an already filtered list changes nothing. */
  lemma {:induction false} LabeledIdempotent(ps: seq<FilePair>)
    ensures Labeled(Labeled(ps)) == Labeled(ps)
  {
    if ps != [] {
      LabeledIdempotent(ps[1..]);
      var head := if ps[0].lbl.Some? then [ps[0]] else [];
      LabeledAppend(head, Labeled(ps[1..]));
    }
  }

  lemma {:induction false} LabeledAppend(a: seq<FilePair>, b: seq<FilePair>)
    ensures Labeled(a + b) == Labeled(a) + Labeled(b)
  {
    if a != [] {
      assert (a + b)[1..] == a[1..] + b;
      LabeledAppend(a[1..], b);
    } else {
      assert a + b == b;
    }
  }
}
