# TiffConnector dataset bookkeeping, modelled in Dafny

This project models the dataset bookkeeping of yapic_io's `TiffConnector`. The connector serves
pixel images and their label masks, both TIFF files, as a tile-addressable training dataset. The
model covers the following:

- **File pairing, list branch of `__init__`.** The image list and the label list are paired
  positionally with `zip`, which stops at the shorter list. A length mismatch only produces a
  warning. A `None` first image name raises before that warning is logged.
- **Dimension validation (`check_label_matrix_dimensions`).** Every image name must be present.
  Every labelled image must have the (z, x, y) extent of its label matrix. All labelled images must
  have the same label channel count. Unlabelled images impose nothing on the label checks. The
  check raises at the first pair that fails.
- **Collection of raw label values (`original_label_values_for_all_images`,
  `unique_labels_per_channel`).** For each label channel, this is the union of the non-zero values
  over all labelled images.
- **The label value mapping (`map_label_values`, `is_labelvalue_valid`).** The raw values of each
  channel are numbered in sorted order by one counter that starts at 1 and is shared across the
  channels. `is_labelvalue_valid` tests the mapped ids, not the raw values.
- **Dataset restructuring (`filter_labeled`, `split`).** Both build new connectors from part of
  the pairs. `split` overwrites both children's mapping with the parent's.
- **Per-image label statistics (`label_count_for_image`, `label_tile`).** `label_count_for_image`
  is a histogram of the positive values of the mapped label matrix. `label_tile` is the mask of the
  cells where any channel holds a given value.
- **Write-path argument checks (`put_tile`, `get_probmap_path`).**

Files:

- `wrappers.dfy`: the `Option` and `Result` datatypes.
- `label_values.dfy`: the label value mapping and its properties.
- `label_matrix.dfy`: label matrices, modelled as channels of flattened zxy cells. It also holds
  the per-channel value sets, the histogram and the mask.
- `file_pairs.dfy`: file pairs, `zip`, `itertools.compress` and the labelled-pairs filter.
- `dimensions.dfy`: the importer interface and what the dimension check accepts.
- `label_collection.dfy`: the collection loop as a fold, and its properties.
- `tiff_connector.dfy`: the `TiffConnector` class.

The image importer is a parameter: a datatype of functions for the image dimensions, the label
dimensions and the decoded raw label matrix. So are the helpers of `yapic_io.utils` that the core
calls: `assign_slice_by_slice`, `get_tile_meshgrid` slicing and `add_to_filename`. Nothing is
assumed about these helpers. A lemma that needs the importer to report the shape of the matrices
it decodes states this as a precondition (`Coherent`).

Behaviour of the code worth noting:

- `filter_labeled` does not copy the parent's label value mapping. It constructs a new connector,
  which computes its mapping from the labelled pairs. `TiffConnectors.TiffConnector.FilterLabeled`
  shows that this equals the mapping computed from all of the parent's pairs. That mapping is the
  parent's own mapping unless the parent is a split half.
- With lists of unequal length, `zip` drops the extra entries. Extra images are dropped from the
  dataset, not kept as unlabelled images.
- The dimension check asks for the image dimensions of every pair before it looks at the label.
  A `None` image name therefore raises even for an unlabelled pair (`MissingImage`).

## Model

| member | source | states |
|---|---|---|
| `LabelValues.Sorted` | yapic_io/tiff_connector.py:427 | `sorted(labels)` is strictly increasing and holds exactly the values of the set |
| `LabelValues.SortedUnique` | yapic_io/tiff_connector.py:427 | any strictly increasing sequence with the set's values is `sorted` of the set, so the order is deterministic |
| `LabelValues.ChannelIds` | yapic_io/tiff_connector.py:427 | the dict comprehension for one channel entered with the counter at `next`: its keys are exactly the channel's raw values, and every id lies in `[next, next + size)` |
| `LabelValues.ChannelIdsAt` | yapic_io/tiff_connector.py:427 | the dict comprehension gives the i-th smallest raw value the counter's value plus i |
| `LabelValues.ChannelIdsInOrder` | yapic_io/tiff_connector.py:427 | given a channel's values in increasing order, the dict numbers them in that order, from the counter's value on |
| `LabelValues.MapLabelValues` | yapic_io/tiff_connector.py:405-433 | one dict per channel, and the keys of dict c are exactly the raw values of channel c |
| `LabelValues.ChannelNumbering` | yapic_io/tiff_connector.py:424-429 | channel c is numbered starting right after the ids of all earlier channels: one shared counter starting at 1 |
| `LabelValues.IdOfRank` | yapic_io/tiff_connector.py:424-429 | the i-th smallest raw value of channel c gets 1 + (number of raw values of channels before c) + i |
| `LabelValues.IdRange` | yapic_io/tiff_connector.py:424-429 | the ids of channel c form the block right after the earlier channels' ids |
| `LabelValues.OrderWithinChannel` | yapic_io/tiff_connector.py:427 | within one channel, the id increases strictly with the raw value |
| `LabelValues.OrderAcrossChannels` | yapic_io/tiff_connector.py:424-429 | every id of channel c is smaller than every id of a later channel |
| `LabelValues.IdsUsedOnce` | yapic_io/tiff_connector.py:424-429 | no id is used twice, within a channel or across channels |
| `LabelValues.Onto` | yapic_io/tiff_connector.py:424-429 | every number from 1 to N is the id of some raw value |
| `LabelValues.IdsAreOneToN` | yapic_io/tiff_connector.py:424-429 | the ids used over all channels are exactly 1..N, N the total number of raw values |
| `LabelValues.IdsAreMapped` | yapic_io/tiff_connector.py:491-493 | the flattened set of dict values holds exactly the values found in some channel's dict |
| `LabelValues.IsMappedIdIff` | yapic_io/tiff_connector.py:491-493 | being a mapped id of the computed mapping holds exactly for 1 <= v <= N |
| `LabelValues.SharedCounterExample` | yapic_io/tiff_connector.py:424-429 | channels {90, 91, 100, 109} and {5} map to {90:1, 91:2, 100:3, 109:4} and {5:5} |
| `LabelMatrix.UniqueLabelsPerChannel` | yapic_io/tiff_connector.py:461-472 | one set per channel holding exactly that channel's values other than 0 |
| `LabelMatrix.CountPositive` | yapic_io/tiff_connector.py:487 | `np.count_nonzero(mat == v)` is positive exactly when v occurs in some channel |
| `LabelMatrix.LabelCount` | yapic_io/tiff_connector.py:484-488 | the keys are exactly the positive values that occur in the matrix, each with its number of cells, at least 1 |
| `LabelMatrix.LabelMask` | yapic_io/tiff_connector.py:360-363 | cell p of the zxy mask is true exactly when some channel holds the value at p |
| `LabelMatrix.MaskCountIsLabelCount` | yapic_io/tiff_connector.py:363-368 | when the value lives in one channel only, the mask marks as many cells as the value occurs |
| `LabelMatrix.MappedMatrixExclusive` | yapic_io/tiff_connector.py:364-368 | in a matrix holding ids of the mapping channel by channel, each non-zero id lives in one channel only |
| `LabelMatrix.MaskCountMatchesHistogram` | yapic_io/tiff_connector.py:355-372 | for such a matrix, the whole-image mask of v marks exactly the count `label_count_for_image` gives for v |
| `FilePairs.Zip` | yapic_io/tiff_connector.py:137 | pair i is (image i, label i); the length is the shorter of the two lists |
| `FilePairs.UnzipZip` | yapic_io/tiff_connector.py:137 | unzipping the pairs gives back both lists cut to the shorter length |
| `FilePairs.Compress` | yapic_io/tiff_connector.py:195-202 | `itertools.compress` keeps at most as many elements as the list has; which ones, in which order and how many are the `Compress*` lemmas below |
| `FilePairs.Negate` | yapic_io/tiff_connector.py:200-202 | `~mask` has the mask's length and flips every entry |
| `FilePairs.ZipUnzip` | yapic_io/tiff_connector.py:194-202 | re-pairing a connector's image and label names rebuilds its pairs unchanged |
| `FilePairs.CompressElements` | yapic_io/tiff_connector.py:194-202 | `compress` keeps only elements of the list |
| `FilePairs.CompressByIndices` | yapic_io/tiff_connector.py:194-202 | `compress` keeps exactly the elements at the true mask positions, in their original order |
| `FilePairs.CompressPartition` | yapic_io/tiff_connector.py:194-202 | the parts under `mask` and under `~mask` together hold the original list's elements, each as often as there |
| `FilePairs.CompressSizes` | yapic_io/tiff_connector.py:194-206 | the part under `mask` has one pair per true entry, and the sizes of the two parts add up to the list's size |
| `FilePairs.CompressLabels` | yapic_io/tiff_connector.py:196-202 | the labels of the kept pairs are the compressed labels, so a `None` label stays `None` |
| `FilePairs.CompressImages` | yapic_io/tiff_connector.py:194-200 | the image names of the kept pairs are the compressed image names |
| `FilePairs.Labeled` | yapic_io/tiff_connector.py:168-173 | the kept pairs are exactly the pairs whose label is not `None` |
| `FilePairs.LabeledIsCompress` | yapic_io/tiff_connector.py:168-173 | the filter is `compress` under the has-label mask, so it keeps the original order |
| `FilePairs.LabeledIdempotent` | yapic_io/tiff_connector.py:164-179 | filtering twice is filtering once |
| `Dimensions.DimensionsOkSubset` | yapic_io/tiff_connector.py:318-346 | a list made of pairs of a consistent list passes the check, which is why `split` and `filter_labeled` cannot fail |
| `LabelCollection.ZipUnion` | yapic_io/tiff_connector.py:455-456 | one set per channel common to both lists, each the union of the two |
| `LabelCollection.Collect` | yapic_io/tiff_connector.py:443-458 | the accumulator after the loop has visited the pairs in order; 0 never appears in the collected values |
| `LabelCollection.CollectUnlabelled` | yapic_io/tiff_connector.py:443-458 | with no labelled image, the result is the empty list |
| `LabelCollection.CollectIsUnion` | yapic_io/tiff_connector.py:443-458 | with labelled images of n channels each, there are n sets, and set c is the union of their non-zero values in channel c |
| `LabelCollection.CollectLabeled` | yapic_io/tiff_connector.py:443-458 | unlabelled images contribute nothing: the labelled pairs alone collect the same values |
| `TiffConnectors.TiffConnector.FromLists` | yapic_io/tiff_connector.py:117-137 | the pairs are the positional `zip` of the lists, and the mapping is not computed yet |
| `TiffConnectors.TiffConnector.ImageDimensions` | yapic_io/tiff_connector.py:284-294 | the importer's dimensions of the image file; in a valid connector a labelled image has its label's (z, x, y) extent |
| `TiffConnectors.TiffConnector.LoadLabelMatrix` | yapic_io/tiff_connector.py:375-402 | `None` exactly for an unlabelled image, and the raw matrix when raw values are asked for |
| `TiffConnectors.TiffConnector.CheckLabelMatrixDimensions` | yapic_io/tiff_connector.py:313-346 | returns normally iff every image is present, every label extent equals its image's, and all label channel counts agree; otherwise raises at the first failing pair with the source's error order |
| `TiffConnectors.TiffConnector.OriginalLabelValuesForAllImages` | yapic_io/tiff_connector.py:436-458 | the loop computes `Collect`, whose properties are the `LabelCollection` lemmas |
| `TiffConnectors.TiffConnector.Open` | yapic_io/tiff_connector.py:117-153 | succeeds iff the first image is present and the zipped pairs pass the check; warns iff the list lengths differ and the first image name is present (a `None` first name raises before the warning); on success the connector is valid, holds the zipped pairs and maps the collected values |
| `TiffConnectors.TiffConnector.FilterLabeled` | yapic_io/tiff_connector.py:164-179 | a new valid connector holding exactly the labelled pairs in order, whose mapping is computed from all of this connector's pairs |
| `TiffConnectors.TiffConnector.Split` | yapic_io/tiff_connector.py:182-226 | two new valid connectors with the pairs under `mask` and under `~mask`, both carrying this connector's mapping; warns iff a part is empty |
| `TiffConnectors.TiffConnector.Part` | yapic_io/tiff_connector.py:209-223 | one half of `split`: a new valid connector holding exactly the given pairs, with this connector's mapping in place of its own |
| `TiffConnectors.TiffConnector.LabelCountForImage` | yapic_io/tiff_connector.py:475-488 | `None` iff the image has no label; otherwise the keys are exactly the positive values of the mapped matrix, each with its count |
| `TiffConnectors.TiffConnector.LabelTile` | yapic_io/tiff_connector.py:355-372 | fails iff the image has no label; otherwise a tile is cut from the mask of the cells where some channel holds the value |
| `TiffConnectors.TiffConnector.IsLabelvalueValid` | yapic_io/tiff_connector.py:491-493 | true exactly when the value is a dict value (a mapped id) of some channel |
| `TiffConnectors.TiffConnector.GetProbmapPath` | yapic_io/tiff_connector.py:259-265 | fails iff no output directory is set; otherwise names the class file of the image under that directory |
| `TiffConnectors.TiffConnector.PutTile` | yapic_io/tiff_connector.py:233-256 | succeeds iff the position has 3 components, the tile has 3 dimensions and an output directory is set, checked in that order; the output image has the pixel image's zxy extent |
| `TiffConnectors.LabelvalueValidIff` | yapic_io/tiff_connector.py:491-493 | for a connector holding the mapping of raw values `original`, a value is valid iff 1 <= v <= N |
| `TiffConnectors.LabelledImagePresent` | yapic_io/tiff_connector.py:321-328 | in a valid connector every labelled image names its image file |
| `TiffConnectors.OriginalLabelsOfValidDataset` | yapic_io/tiff_connector.py:436-472 | for a consistent dataset: no 0, the empty list without labels, and otherwise one set per label channel holding the union of the labelled images' non-zero values |

## Left out

- Wildcard discovery (`glob`, `load_image_filenames`, `load_label_filenames`) and the best-match pairing `find_best_matching_pairs`. These are file-system I/O and a heuristic whose code is not part of this model. Only the list branch of `__init__` is modelled.
- Paths: `os.path.split`/`join`/`normpath` are modelled as the identity on file names. The model therefore does not capture that the list branch keeps only the first file's directory and joins every later name to it.
- TIFF decoding, encoding and writing (`import_tiff_image`, `get_tiff_image_dimensions`, `init_empty_tiff_image`, `add_vals_to_tiff_image`). These become the `Importer` parameter. The `zstack` and multichannel flags only select how the importer reads, so they are folded into it.
- `get_tile` and `load_image`: they load a pixel image and slice it. That is I/O plus a helper not shown here.
- `get_label_tile`: it calls `self.load_label_matrix(self, image_nr)` (yapic_io/tiff_connector.py:270), passing the connector as the image index. That call cannot succeed, so no correct behaviour is modelled for it.
- `init_probmap_image`: whether the output file exists, and its creation and appending, are file-system effects. `PutTile` returns a description of the write instead: the output path, the image's zxy extent, the position and the shape of the tile. The tile's pixel values are not kept.
- The random draw of `split` (seeding, `np.random.choice`, saving and restoring the generator state): the mask is an input.
- `lru_cache` memoisation carries no meaning for these operations. The model recomputes every value.
- Logging, warnings as text, `__repr__` and the wording of error messages. Warnings are returned as booleans.
- Image indices are natural numbers below the image count. Python's negative indices and the `IndexError` for indices out of range are not modelled.
- `LabelTile`: the slicing by `get_tile_meshgrid` is an uninterpreted helper. The contract fixes the mask being sliced, not the tile's shape.
- `LabelCountForImage`: the mapped matrix comes from the uninterpreted `assign_slice_by_slice`. The contract describes the histogram of whatever matrix that returns. `MaskCountMatchesHistogram` states the intended relation under the assumption that the mapped matrix holds the mapping's ids channel by channel.
- yapic_io/cellvoy_connector.py is not part of this model: it is glob discovery and image stacking around the same interface.
