/** The image importer as the connector sees it, and the consistency that
    `check_label_matrix_dimensions` demands of a list of file pairs: every image name is present,
    every label matrix has the (z, x, y) extent of its image, and all label matrices have the same
    number of channels. */
module Dimensions {
  import opened LabelMatrix
  import opened FilePairs

  /** `(channels, z, x, y)`, as `get_tiff_image_dimensions` reports it. */
  datatype Dims = Dims(channels: nat, zxy: Extent)

  /** The calls the connector makes into the image importer, one function per call: the shape of
      a pixel image, the shape of a label image, and the decoded label image with its raw values.
      A file is named by its file name; directories are not modelled. */
  datatype Importer = Importer(
    imageDimensions: string -> Dims,
    labelDimensions: string -> Dims,
    labelImage: string -> LabelMatrix)

  /** The importer reports for every label file the shape of the matrix it decodes from it. */
  ghost predicate Coherent(imp: Importer) {
    forall l :: imp.labelDimensions(l) == Dims(|imp.labelImage(l).channels|, imp.labelImage(l).zxy)
  }

  /** Number of label channels of a labelled pair. */
  function LabelChannels(imp: Importer, p: FilePair): nat
    requires p.lbl.Some?
  {
    imp.labelDimensions(p.lbl.value).channels
  }

  /** One pair passes the check on its own: its image name is present (the check asks for the
      image dimensions of every pair, labelled or not) and its label, if any, has the (z, x, y)
      extent of the image; the channel axis is not compared. */
  predicate PairOk(imp: Importer, p: FilePair) {
    p.img.Some? &&
    (p.lbl.Some? ==> imp.labelDimensions(p.lbl.value).zxy == imp.imageDimensions(p.img.value).zxy)
  }

  /** All labelled pairs have the same number of label channels; unlabelled pairs do not count. */
  predicate ChannelsAgree(imp: Importer, ps: seq<FilePair>) {
    forall p, q | p in ps && q in ps && p.lbl.Some? && q.lbl.Some? ::
      LabelChannels(imp, p) == LabelChannels(imp, q)
  }

  /** What `check_label_matrix_dimensions` accepts. */
  predicate DimensionsOk(imp: Importer, ps: seq<FilePair>) {
    (forall p | p in ps :: PairOk(imp, p)) && ChannelsAgree(imp, ps)
  }

  /** Any list made of pairs of a consistent list is consistent: the check is about the pairs
      present, not their number or order. */
  lemma DimensionsOkSubset(imp: Importer, ps: seq<FilePair>, sub: seq<FilePair>)
    requires DimensionsOk(imp, ps)
    requires forall p | p in sub :: p in ps
    ensures DimensionsOk(imp, sub)
  {
  }

  /** A consistent list stays consistent when a pair is appended that passes on its own and, if
      labelled, has the channel count of every labelled pair already there. */
  lemma ChannelsAgreeExtend(imp: Importer, pre: seq<FilePair>, p: FilePair)
    requires ChannelsAgree(imp, pre)
    requires p.lbl.Some? ==> forall q | q in pre && q.lbl.Some? :: LabelChannels(imp, q) == LabelChannels(imp, p)
    ensures ChannelsAgree(imp, pre + [p])
  {
    forall a, b | a in pre + [p] && b in pre + [p] && a.lbl.Some? && b.lbl.Some?
      ensures LabelChannels(imp, a) == LabelChannels(imp, b)
    {
      assert a in pre || a == p;
      assert b in pre || b == p;
    }
  }

  lemma DimensionsOkExtend(imp: Importer, pre: seq<FilePair>, p: FilePair)
    requires DimensionsOk(imp, pre) && PairOk(imp, p)
    requires p.lbl.Some? ==> forall q | q in pre && q.lbl.Some? :: LabelChannels(imp, q) == LabelChannels(imp, p)
    ensures DimensionsOk(imp, pre + [p])
  {
    ChannelsAgreeExtend(imp, pre, p);
    forall q | q in pre + [p] ensures PairOk(imp, q) {
      assert q in pre || q == p;
    }
  }
}
