/** The `TiffConnector`: a dataset of (image, label) file pairs together with the label value
    mapping computed for it. Construction pairs the file lists, checks the dimensions and maps the
    label values; `split` and `filter_labeled` build new connectors from a part of the pairs; the
    rest of the interface reads label matrices and checks the arguments of probability map writes.
    Decoding and encoding are done by the image importer, which is a parameter here. */
module TiffConnectors {
  import opened Wrappers
  import opened LabelValues
  import opened LabelMatrix
  import opened FilePairs
  import opened Dimensions
  import opened LabelCollection

  /** The exceptions the connector raises. */
  datatype Error =
    | MissingImage(index: nat)              // an image name is `None`: `os.path` raises TypeError
    | LabelChannelsInconsistent(index: nat) // ValueError: label channel count differs
    | ShapeMismatch(index: nat)             // ValueError: (z, x, y) of label and image differ
    | NoLabelMatrix(index: nat)             // `label_tile` on an image without label
    | PositionNotZxy                        // ValueError: `pos_zxy` has not length 3
    | PixelsNotZxy                          // ValueError: the pixel tile has not 3 dimensions
    | SavepathNotSet                        // ValueError: no output directory configured

  /** The helpers of `yapic_io.utils` the connector calls. Their code is not part of this model;
      nothing is assumed about them:
      - `assignSliceBySlice(mapping, mat)`: the label matrix with the mapping applied;
      - `tile(shape, mask, pos, size)`: `mask[get_tile_meshgrid(shape, pos, size)]`;
      - `probmapFilename(img, v)`: `add_to_filename(img, 'class_' + str(v))`. */
  datatype Utils = Utils(
    assignSliceBySlice: (seq<map<int, int>>, LabelMatrix) -> LabelMatrix,
    tile: (Extent, seq<bool>, seq<int>, seq<int>) -> seq<bool>,
    probmapFilename: (string, int) -> string)

  /** `os.path.join(savepath, probmap_filename)`. */
  datatype ProbmapPath = ProbmapPath(dir: string, filename: string)

  /** The write `put_tile` hands to the importer: the output image (created with the extent of the
      pixel image if it does not exist yet), the position and the shape of the pixel tile. */
  datatype TileWrite = TileWrite(path: ProbmapPath, extent: Extent, pos: seq<int>, shape: seq<nat>)

  /** `check_label_matrix_dimensions` raised `e` at the first pair that fails: every earlier pair
      passed, and `e` names what is wrong with this one, checked in the order of the source (image
      present, then channel count, then extent). */
  predicate FirstFailure(imp: Importer, ps: seq<FilePair>, e: Error) {
    match e
    case MissingImage(i) =>
      i < |ps| && DimensionsOk(imp, ps[..i]) && ps[i].img.None?
    case LabelChannelsInconsistent(i) =>
      i < |ps| && DimensionsOk(imp, ps[..i]) && ps[i].img.Some? && ps[i].lbl.Some? &&
      !ChannelsAgree(imp, ps[..i + 1])
    case ShapeMismatch(i) =>
      i < |ps| && DimensionsOk(imp, ps[..i]) && ps[i].img.Some? && ps[i].lbl.Some? &&
      ChannelsAgree(imp, ps[..i + 1]) && !PairOk(imp, ps[i])
    case _ => false
  }

  class TiffConnector {
    /** The dataset: one pair per image, in `image_nr` order. */
    var filenames: seq<FilePair>
    /** One dict per label channel from raw label value to the id seen downstream. */
    var labelvalueMapping: seq<map<int, int>>
    const savepath: Option<string>
    const importer: Importer
    const utils: Utils

    /** What a constructed connector satisfies: construction raises otherwise. */
    predicate Valid()
      reads this
    {
      DimensionsOk(importer, filenames)
    }

    /** The list branch of `__init__` up to the checks: the two lists are paired positionally
        with `zip`; the mapping is not computed yet. */
    constructor FromLists(imgs: seq<Option<string>>, lbls: seq<Option<string>>, savepath: Option<string>,
                          importer: Importer, utils: Utils)
      ensures filenames == Zip(imgs, lbls) && labelvalueMapping == []
      ensures this.savepath == savepath && this.importer == importer && this.utils == utils
    {
      filenames := Zip(imgs, lbls);
      labelvalueMapping := [];
      this.savepath := savepath;
      this.importer := importer;
      this.utils := utils;
    }

    /** `image_dimensions(image_nr)`: the importer's report for the image file. In a valid
        connector a labelled image has the (z, x, y) extent of its label. */
    function ImageDimensions(imageNr: nat): (r: Dims)
      reads this
      requires imageNr < |filenames| && filenames[imageNr].img.Some?
      ensures Valid() && filenames[imageNr].lbl.Some? ==>
        r.zxy == importer.labelDimensions(filenames[imageNr].lbl.value).zxy
    {
      assert filenames[imageNr] in filenames;
      importer.imageDimensions(filenames[imageNr].img.value)
    }

    /** `load_label_matrix(image_nr, original_labelvalues)`: `None` for an image without label,
        otherwise the raw matrix or the matrix with the mapping applied. */
    function LoadLabelMatrix(imageNr: nat, original: bool): (r: Option<LabelMatrix>)
      reads this
      requires imageNr < |filenames|
      ensures r.None? <==> filenames[imageNr].lbl.None?
      ensures r.Some? && original ==> r.value == importer.labelImage(filenames[imageNr].lbl.value)
    {
      match filenames[imageNr].lbl
      case None => None
      case Some(l) =>
        var raw := importer.labelImage(l);
        if original then Some(raw) else Some(utils.assignSliceBySlice(labelvalueMapping, raw))
    }

    /** `check_label_matrix_dimensions`: returns normally exactly when the pairs are consistent,
        and otherwise raises at the first pair that is not. */
    method CheckLabelMatrixDimensions() returns (r: Result<(), Error>)
      ensures r.Success? <==> DimensionsOk(importer, filenames)
      ensures r.Failure? ==> FirstFailure(importer, filenames, r.error)
    {
      var nChannels: Option<nat> := None;
      var i := 0;
      while i < |filenames|
        invariant 0 <= i <= |filenames|
        invariant DimensionsOk(importer, filenames[..i])
        invariant nChannels.None? <==> forall p | p in filenames[..i] :: p.lbl.None?
        invariant nChannels.Some? ==>
          forall p | p in filenames[..i] && p.lbl.Some? :: LabelChannels(importer, p) == nChannels.value
      {
        var p := filenames[i];
        ghost var pre := filenames[..i];
        assert filenames[..i + 1] == pre + [p];
        assert p in filenames;
        if p.img.None? {
          return Failure(MissingImage(i));
        }
        var imgDims := importer.imageDimensions(p.img.value);
        if p.lbl.Some? {
          var lblDims := importer.labelDimensions(p.lbl.value);
          if nChannels.None? {
            nChannels := Some(lblDims.channels);
          }
          if nChannels.value != lblDims.channels {
            ghost var q :| q in pre && q.lbl.Some?;
            assert q in pre + [p] && p in pre + [p];
            assert q in filenames;
            return Failure(LabelChannelsInconsistent(i));
          }
          if lblDims.zxy != imgDims.zxy {
            ChannelsAgreeExtend(importer, pre, p);
            return Failure(ShapeMismatch(i));
          }
        }
        DimensionsOkExtend(importer, pre, p);
        i := i + 1;
      }
      assert filenames[..i] == filenames;
      return Success(());
    }

    /** `original_label_values_for_all_images`: the loop over all images, proved to compute
        `Collect`, whose properties are the lemmas of `LabelCollection`. */
    method OriginalLabelValuesForAllImages() returns (labels: seq<set<int>>)
      ensures labels == Collect(importer, filenames)
    {
      labels := [];
      var i := 0;
      while i < |filenames|
        invariant 0 <= i <= |filenames|
        invariant labels == Collect(importer, filenames[..i])
      {
        assert filenames[..i + 1][..i] == filenames[..i];
        var mat := LoadLabelMatrix(i, true);
        if mat.Some? {
          var labelsPerImage := UniqueLabelsPerChannel(mat.value);
          if |labels| == 0 {
            labels := labelsPerImage;
          } else {
            labels := ZipUnion(labels, labelsPerImage);
          }
        }
        i := i + 1;
      }
      assert filenames[..i] == filenames;
    }

    /** `__init__` with lists of file names: pair positionally, raise TypeError when the first
        image name is `None` (before anything is logged), warn when the two lists differ in
        length, check the dimensions and map the label values collected from the dataset. */
    static method Open(imgs: seq<Option<string>>, lbls: seq<Option<string>>, savepath: Option<string>,
                       importer: Importer, utils: Utils)
      returns (r: Result<TiffConnector, Error>, countsDiffer: bool)
      ensures countsDiffer <==> |imgs| != |lbls| && (imgs == [] || imgs[0].Some?)
      ensures r.Success? <==> (imgs == [] || imgs[0].Some?) && DimensionsOk(importer, Zip(imgs, lbls))
      ensures r.Failure? && imgs != [] && imgs[0].None? ==> r.error == MissingImage(0)
      ensures r.Failure? && (imgs == [] || imgs[0].Some?) ==> FirstFailure(importer, Zip(imgs, lbls), r.error)
      ensures r.Success? ==> fresh(r.value) && r.value.Valid()
      ensures r.Success? ==> r.value.filenames == Zip(imgs, lbls)
      ensures r.Success? ==> r.value.labelvalueMapping == MapLabelValues(Collect(importer, Zip(imgs, lbls)))
      ensures r.Success? ==>
        r.value.savepath == savepath && r.value.importer == importer && r.value.utils == utils
    {
      if imgs != [] && imgs[0].None? {
        if lbls != [] {
          assert Zip(imgs, lbls)[0] == FilePair(None, lbls[0]);
        }
        return Failure(MissingImage(0)), false;
      }
      countsDiffer := |imgs| != |lbls|;
      var c := new TiffConnector.FromLists(imgs, lbls, savepath, importer, utils);
      var checked := c.CheckLabelMatrixDimensions();
      if checked.Failure? {
        return Failure(checked.error), countsDiffer;
      }
      var original := c.OriginalLabelValuesForAllImages();
      c.labelvalueMapping := MapLabelValues(original);
      return Success(c), countsDiffer;
    }

    /** `filter_labeled`: a new connector on the labelled pairs, in their order. It is built like
        any connector, so its mapping is computed anew from those pairs; that is this connector's
        own mapping recomputed, since unlabelled images contribute no label values. */
    method FilterLabeled() returns (c: TiffConnector)
      requires Valid()
      ensures fresh(c) && c.Valid()
      ensures c.filenames == Labeled(filenames)
      ensures forall p :: p in c.filenames <==> p in filenames && p.lbl.Some?
      ensures c.labelvalueMapping == MapLabelValues(Collect(importer, filenames))
      ensures c.savepath == savepath && c.importer == importer && c.utils == utils
    {
      var kept := Labeled(filenames);
      DimensionsOkSubset(importer, filenames, kept);
      ZipUnzip(kept);
      CollectLabeled(importer, filenames);
      var imgs, lbls := Images(kept), Labels(kept);
      if imgs != [] {
        assert kept[0] in filenames;
      }
      var r, _ := Open(imgs, lbls, savepath, importer, utils);
      if r.Failure? {
        assert false;
      }
      c := r.value;
    }

    /** `split` with the random draw given as `mask` (one entry per image): the first connector
        takes the pairs where the mask is true, the second the others, each in the original order,
        and both get this connector's mapping in place of their own. An empty part only warns. */
    method Split(mask: seq<bool>) returns (first: TiffConnector, second: TiffConnector, firstEmpty: bool, secondEmpty: bool)
      requires Valid()
      requires |mask| == |filenames|
      ensures fresh(first) && fresh(second) && first != second
      ensures first.Valid() && second.Valid()
      ensures first.filenames == Compress(filenames, mask)
      ensures second.filenames == Compress(filenames, Negate(mask))
      ensures first.labelvalueMapping == labelvalueMapping && second.labelvalueMapping == labelvalueMapping
      ensures first.savepath == savepath && first.importer == importer && first.utils == utils
      ensures second.savepath == savepath && second.importer == importer && second.utils == utils
      ensures firstEmpty <==> first.filenames == []
      ensures secondEmpty <==> second.filenames == []
    {
      var part1 := Compress(filenames, mask);
      var part2 := Compress(filenames, Negate(mask));
      CompressElements(filenames, mask);
      CompressElements(filenames, Negate(mask));
      firstEmpty := |part1| == 0;
      secondEmpty := |part2| == 0;
      first := Part(part1);
      second := Part(part2);
    }

    /** One half of `split`: a connector built on `part`, a selection of this connector's pairs,
        whose freshly computed mapping is then replaced by this connector's. */
    method Part(part: seq<FilePair>) returns (c: TiffConnector)
      requires Valid()
      requires forall p | p in part :: p in filenames
      ensures fresh(c) && c.Valid()
      ensures c.filenames == part && c.labelvalueMapping == labelvalueMapping
      ensures c.savepath == savepath && c.importer == importer && c.utils == utils
    {
      DimensionsOkSubset(importer, filenames, part);
      ZipUnzip(part);
      if part != [] {
        assert part[0] in filenames;
      }
      var r, _ := Open(Images(part), Labels(part), savepath, importer, utils);
      if r.Failure? {
        assert false;
      }
      c := r.value;
      c.labelvalueMapping := labelvalueMapping;
    }

    /** `label_count_for_image`: `None` for an image without label; otherwise, for every positive
        value of the mapped label matrix, its number of cells. */
    function LabelCountForImage(imageNr: nat): (r: Option<map<int, nat>>)
      reads this
      requires imageNr < |filenames|
      ensures r.None? <==> filenames[imageNr].lbl.None?
      ensures r.Some? ==> forall l ::
        l in r.value <==> l > 0 && Occurs(LoadLabelMatrix(imageNr, false).value, l)
      ensures r.Some? ==> forall l | l in r.value ::
        r.value[l] == Count(LoadLabelMatrix(imageNr, false).value.channels, l) && r.value[l] >= 1
    {
      match LoadLabelMatrix(imageNr, false)
      case None => None
      case Some(mat) => Some(LabelCount(mat))
    }

    /** `label_tile`: the zxy mask of the cells where some channel of the mapped label matrix holds
        `labelValue`, cut to the tile. Without a label matrix the comparison yields a plain `False`
        and the reduction fails. */
    function LabelTile(imageNr: nat, pos: seq<int>, size: seq<int>, labelValue: int): (r: Result<seq<bool>, Error>)
      reads this
      requires imageNr < |filenames|
      ensures r.Failure? <==> filenames[imageNr].lbl.None?
      ensures r.Failure? ==> r.error == NoLabelMatrix(imageNr)
      ensures r.Success? ==>
        var mat := LoadLabelMatrix(imageNr, false).value;
        exists mask: seq<bool> ::
          r.value == utils.tile(mat.zxy, mask, pos, size) && |mask| == Cells(mat.zxy) &&
          forall p | 0 <= p < |mask| :: mask[p] <==> exists c | 0 <= c < |mat.channels| :: mat.channels[c][p] == labelValue
    {
      match LoadLabelMatrix(imageNr, false)
      case None => Failure(NoLabelMatrix(imageNr))
      case Some(mat) => Success(utils.tile(mat.zxy, LabelMask(mat, labelValue), pos, size))
    }

    /** `is_labelvalue_valid`: the value is one of the mapped ids (a dict value), not a raw value
        (a dict key). */
    function IsLabelvalueValid(labelValue: int): (r: bool)
      reads this
      ensures r <==> IsMappedId(labelvalueMapping, labelValue)
    {
      IdsAreMapped(labelvalueMapping, labelValue);
      labelValue in Ids(labelvalueMapping)
    }

    /** `get_probmap_path`: fails when no output directory is set, and otherwise names the output
        image of class `labelValue` after the image file. */
    function GetProbmapPath(imageNr: nat, labelValue: int): (r: Result<ProbmapPath, Error>)
      reads this
      requires imageNr < |filenames| && filenames[imageNr].img.Some?
      ensures r.Failure? <==> savepath.None?
      ensures r.Failure? ==> r.error == SavepathNotSet
      ensures r.Success? ==> r.value.dir == savepath.value
      ensures r.Success? ==> r.value.filename == utils.probmapFilename(filenames[imageNr].img.value, labelValue)
    {
      match savepath
      case None => Failure(SavepathNotSet)
      case Some(dir) => Success(ProbmapPath(dir, utils.probmapFilename(filenames[imageNr].img.value, labelValue)))
    }

    /** The argument checks of `put_tile` and the write it then performs: the position must have
        3 components, the pixel tile 3 dimensions, and an output directory must be set, checked in
        this order; the output image has the (z, x, y) extent of the pixel image. */
    function PutTile(shape: seq<nat>, pos: seq<int>, imageNr: nat, labelValue: int): (r: Result<TileWrite, Error>)
      reads this
      requires imageNr < |filenames| && filenames[imageNr].img.Some?
      ensures r.Success? <==> |pos| == 3 && |shape| == 3 && savepath.Some?
      ensures |pos| != 3 ==> r == Failure(PositionNotZxy)
      ensures |pos| == 3 && |shape| != 3 ==> r == Failure(PixelsNotZxy)
      ensures |pos| == 3 && |shape| == 3 && savepath.None? ==> r == Failure(SavepathNotSet)
      ensures r.Success? ==> r.value.pos == pos && r.value.shape == shape
      ensures r.Success? ==> r.value.extent == ImageDimensions(imageNr).zxy
      ensures r.Success? ==> GetProbmapPath(imageNr, labelValue) == Success(r.value.path)
    {
      if |pos| != 3 then Failure(PositionNotZxy)
      else if |shape| != 3 then Failure(PixelsNotZxy)
      else
        match GetProbmapPath(imageNr, labelValue)
        case Failure(e) => Failure(e)
        case Success(path) => Success(TileWrite(path, ImageDimensions(imageNr).zxy, pos, shape))
    }
  }

  /** For a connector whose mapping is computed from raw values `original`, as one built by `Open`
      is, `is_labelvalue_valid` holds exactly for 1..N, N the number of raw values. */
  lemma LabelvalueValidIff(c: TiffConnector, original: seq<set<int>>, v: int)
    requires c.labelvalueMapping == MapLabelValues(original)
    ensures c.IsLabelvalueValid(v) <==> 1 <= v <= TotalSize(original)
  {
    IsMappedIdIff(original, v);
  }

  /** Every labelled image of a valid connector names its image, so its dimensions can be asked
      for (and then match its label's, by `ImageDimensions`). */
  lemma LabelledImagePresent(c: TiffConnector, i: nat)
    requires c.Valid()
    requires i < |c.filenames| && c.filenames[i].lbl.Some?
    ensures c.filenames[i].img.Some?
  {
    assert c.filenames[i] in c.filenames;
  }

  /** The raw label values of a consistent dataset whose importer reports the shapes of the label
      matrices it decodes: one set per label channel, each the union over the labelled images of
      their non-zero values in that channel; the empty list without labelled images. */
  lemma OriginalLabelsOfValidDataset(imp: Importer, ps: seq<FilePair>)
    requires Coherent(imp) && DimensionsOk(imp, ps)
    ensures forall c | 0 <= c < |Collect(imp, ps)| :: 0 !in Collect(imp, ps)[c]
    ensures (forall p | p in ps :: p.lbl.None?) ==> Collect(imp, ps) == []
    ensures forall p | p in ps && p.lbl.Some? ::
      |Collect(imp, ps)| == |Channels(imp, p)| &&
      forall c, v | 0 <= c < |Channels(imp, p)| ::
        v in Collect(imp, ps)[c] <==> v != 0 && exists q | q in ps && q.lbl.Some? :: v in Channels(imp, q)[c]
  {
    if forall p | p in ps :: p.lbl.None? {
      CollectUnlabelled(imp, ps);
    } else {
      var p0 :| p0 in ps && p0.lbl.Some?;
      var n := |Channels(imp, p0)|;
      forall p | p in ps && p.lbl.Some? ensures |Channels(imp, p)| == n {
        assert LabelChannels(imp, p) == LabelChannels(imp, p0);
      }
      CollectIsUnion(imp, ps, n);
    }
  }
}
