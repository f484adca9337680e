/** Label matrices as the connector sees them: `c` channels, each a flattened block of z*x*y
    integer cells. This module holds the per-matrix computations of the connector: the distinct
    non-zero values per channel, the histogram of positive values, and the boolean mask that
    marks where a value occurs in any channel. */
module LabelMatrix {
  import opened LabelValues

  /** The (z, x, y) extent of an image or of a label matrix. */
  datatype Extent = Extent(z: nat, x: nat, y: nat)

  /** Number of cells of one channel. */
  function Cells(e: Extent): nat {
    e.z * e.x * e.y
  }

  /** A czxy label matrix, one flattened zxy block per channel. */
  datatype Matrix = Matrix(zxy: Extent, channels: seq<seq<int>>)

  predicate WellShaped(m: Matrix) {
    forall c | 0 <= c < |m.channels| :: |m.channels[c]| == Cells(m.zxy)
  }

  type LabelMatrix = m: Matrix | WellShaped(m) witness Matrix(Extent(0, 0, 0), [])

  /** `v` occurs somewhere in the matrix. */
  predicate Occurs(mat: LabelMatrix, v: int) {
    exists c | 0 <= c < |mat.channels| :: v in mat.channels[c]
  }

  /** Every value stored in the matrix (`np.unique(mat)` as a set). */
  function Values(mat: LabelMatrix): (r: set<int>)
    ensures forall v :: v in r <==> Occurs(mat, v)
  {
    set c, v | 0 <= c < |mat.channels| && v in mat.channels[c] :: v
  }

  /** `unique_labels_per_channel`: for each channel the set of its distinct values without 0. */
  function UniqueLabelsPerChannel(mat: LabelMatrix): (r: seq<set<int>>)
    ensures |r| == |mat.channels|
    ensures forall c, v | 0 <= c < |r| :: v in r[c] <==> v in mat.channels[c] && v != 0
  {
    seq(|mat.channels|, c requires 0 <= c < |mat.channels| => (set v | v in mat.channels[c]) - {0})
  }

  /** Number of cells of `s` holding `v`. */
  function CountIn(s: seq<int>, v: int): nat {
    if s == [] then 0 else (if s[0] == v then 1 else 0) + CountIn(s[1..], v)
  }

  /** Number of cells holding `v` over all channels (`np.count_nonzero(mat == v)`). */
  function Count(channels: seq<seq<int>>, v: int): nat {
    if channels == [] then 0 else CountIn(channels[0], v) + Count(channels[1..], v)
  }

  lemma {:induction false} CountInPositive(s: seq<int>, v: int)
    ensures CountIn(s, v) > 0 <==> v in s
  {
    if s != [] {
      CountInPositive(s[1..], v);
      assert s == [s[0]] + s[1..];
    }
  }

  /** A value is counted at least once exactly when it occurs in some channel. */
  lemma {:induction false} CountPositive(channels: seq<seq<int>>, v: int)
    ensures Count(channels, v) > 0 <==> exists c | 0 <= c < |channels| :: v in channels[c]
  {
    if channels != [] {
      CountInPositive(channels[0], v);
      CountPositive(channels[1..], v);
      if exists c | 0 <= c < |channels| :: v in channels[c] {
        var c :| 0 <= c < |channels| && v in channels[c];
        if c > 0 {
          assert channels[1..][c - 1] == channels[c];
        }
      }
      if exists c | 0 <= c < |channels| - 1 :: v in channels[1..][c] {
        var c :| 0 <= c < |channels| - 1 && v in channels[1..][c];
        assert channels[c + 1] == channels[1..][c];
      }
    }
  }

  /** The dict comprehension of `label_count_for_image` over a loaded matrix:
      `{ l: np.count_nonzero(mat == l) for l in np.unique(mat) if l > 0 }`. */
  function LabelCount(mat: LabelMatrix): (r: map<int, nat>)
    ensures forall l :: l in r <==> l > 0 && Occurs(mat, l)
    ensures forall l | l in r :: r[l] == Count(mat.channels, l) && r[l] >= 1
  {
    var r := map l | l in Values(mat) && l > 0 :: Count(mat.channels, l);
    assert forall l | l in r :: r[l] >= 1 by {
      forall l | l in r ensures r[l] >= 1 {
        CountPositive(mat.channels, l);
      }
    }
    r
  }

  /** The element-wise `or` of two masks. */
  function Or(a: seq<bool>, b: seq<bool>): (r: seq<bool>)
    requires |a| == |b|
    ensures |r| == |a|
    ensures forall p | 0 <= p < |r| :: r[p] <==> a[p] || b[p]
  {
    seq(|a|, p requires 0 <= p < |a| => a[p] || b[p])
  }

  /** The element-wise comparison `s == v`. */
  function Equals(s: seq<int>, v: int): (r: seq<bool>)
    ensures |r| == |s|
    ensures forall p | 0 <= p < |r| :: r[p] <==> s[p] == v
  {
    seq(|s|, p requires 0 <= p < |s| => s[p] == v)
  }

  /** A mask of `n` cells none of which is set. */
  function AllFalse(n: nat): (r: seq<bool>)
    ensures |r| == n
    ensures forall p | 0 <= p < n :: !r[p]
  {
    seq(n, p => false)
  }

  /** `boolmat_4d.any(axis=0)` over the first `k` channels of `boolmat_4d = (labelmat == v)`. */
  function AnyUpTo(channels: seq<seq<int>>, k: nat, n: nat, v: int): (r: seq<bool>)
    requires k <= |channels|
    requires forall c | 0 <= c < |channels| :: |channels[c]| == n
    ensures |r| == n
    ensures forall p | 0 <= p < n :: r[p] <==> exists c | 0 <= c < k :: channels[c][p] == v
  {
    if k == 0 then AllFalse(n)
    else
      var prev := AnyUpTo(channels, k - 1, n, v);
      var r := Or(prev, Equals(channels[k - 1], v));
      assert forall p | 0 <= p < n && r[p] :: exists c | 0 <= c < k :: channels[c][p] == v by {
        forall p | 0 <= p < n && r[p] ensures exists c | 0 <= c < k :: channels[c][p] == v {
          if !prev[p] {
            assert channels[k - 1][p] == v;
          }
        }
      }
      r
  }

  /** The zxy mask of `label_tile` before slicing: cell `p` is true exactly when some channel holds
      `v` at `p`. */
  function LabelMask(mat: LabelMatrix, v: int): (r: seq<bool>)
    ensures |r| == Cells(mat.zxy)
    ensures forall p | 0 <= p < |r| :: r[p] <==> exists c | 0 <= c < |mat.channels| :: mat.channels[c][p] == v
  {
    AnyUpTo(mat.channels, |mat.channels|, Cells(mat.zxy), v)
  }

  /** Number of true cells of a mask. */
  function TrueCount(b: seq<bool>): nat {
    if b == [] then 0 else (if b[0] then 1 else 0) + TrueCount(b[1..])
  }

  lemma {:induction false} TrueCountEquals(s: seq<int>, v: int)
    ensures TrueCount(Equals(s, v)) == CountIn(s, v)
  {
    if s != [] {
      assert Equals(s, v)[1..] == Equals(s[1..], v);
      TrueCountEquals(s[1..], v);
    }
  }

  lemma {:induction false} TrueCountOrDisjoint(a: seq<bool>, b: seq<bool>)
    requires |a| == |b|
    requires forall p | 0 <= p < |a| :: !(a[p] && b[p])
    ensures TrueCount(Or(a, b)) == TrueCount(a) + TrueCount(b)
  {
    if a != [] {
      assert Or(a, b)[1..] == Or(a[1..], b[1..]);
      TrueCountOrDisjoint(a[1..], b[1..]);
    }
  }

  /** `v` is found in at most one channel of the matrix. */
  predicate ChannelExclusive(mat: LabelMatrix, v: int) {
    forall c, d, p, q | 0 <= c < |mat.channels| && 0 <= d < |mat.channels| && 0 <= p < |mat.channels[c]| && 0 <= q < |mat.channels[d]| ::
      mat.channels[c][p] == v && mat.channels[d][q] == v ==> c == d
  }

  /** Counting over the first `k` channels adds the count of channel `k - 1` to that of the
      first `k - 1`. */
  lemma {:induction false} CountSplit(channels: seq<seq<int>>, k: nat, v: int)
    requires 0 < k <= |channels|
    ensures Count(channels[..k], v) == Count(channels[..k - 1], v) + CountIn(channels[k - 1], v)
  {
    if k == 1 {
      assert channels[..1] == [channels[0]];
      assert channels[..1][1..] == [];
      assert channels[..0] == [];
    } else {
      var tail := channels[1..];
      CountSplit(tail, k - 1, v);
      assert channels[..k][1..] == tail[..k - 1];
      assert channels[..k - 1][1..] == tail[..k - 2];
      assert tail[k - 2] == channels[k - 1];
    }
  }

  lemma {:induction false} MaskCountUpTo(mat: LabelMatrix, k: nat, v: int)
    requires k <= |mat.channels|
    requires ChannelExclusive(mat, v)
    ensures TrueCount(AnyUpTo(mat.channels, k, Cells(mat.zxy), v)) == Count(mat.channels[..k], v)
  {
    if k == 0 {
      AllFalseCount(Cells(mat.zxy));
      assert mat.channels[..0] == [];
    } else {
      MaskCountUpTo(mat, k - 1, v);
      MaskCountStep(mat, k, v);
      CountSplit(mat.channels, k, v);
    }
  }

  /** Channel `k - 1` adds its own count of `v` to the mask of the first `k - 1` channels, since
      none of the cells it marks is marked already. */
  lemma MaskCountStep(mat: LabelMatrix, k: nat, v: int)
    requires 0 < k <= |mat.channels|
    requires ChannelExclusive(mat, v)
    ensures TrueCount(AnyUpTo(mat.channels, k, Cells(mat.zxy), v))
      == TrueCount(AnyUpTo(mat.channels, k - 1, Cells(mat.zxy), v)) + CountIn(mat.channels[k - 1], v)
  {
    var n := Cells(mat.zxy);
    var prev := AnyUpTo(mat.channels, k - 1, n, v);
    var last := Equals(mat.channels[k - 1], v);
    forall p | 0 <= p < n && prev[p] ensures !last[p] {
      var c :| 0 <= c < k - 1 && mat.channels[c][p] == v;
      assert c != k - 1;
    }
    TrueCountOrDisjoint(prev, last);
    TrueCountEquals(mat.channels[k - 1], v);
  }

  lemma {:induction false} AllFalseCount(n: nat)
    ensures TrueCount(AllFalse(n)) == 0
  {
    if n > 0 {
      assert AllFalse(n)[1..] == AllFalse(n - 1);
      AllFalseCount(n - 1);
    }
  }

  /** When `v` lives in one channel only, as a mapped label value does, the mask of `label_tile`
      marks exactly as many cells as `label_count_for_image` counts for `v`. */
  lemma MaskCountIsLabelCount(mat: LabelMatrix, v: int)
    requires ChannelExclusive(mat, v)
    ensures TrueCount(LabelMask(mat, v)) == Count(mat.channels, v)
  {
    MaskCountUpTo(mat, |mat.channels|, v);
    assert mat.channels[..|mat.channels|] == mat.channels;
  }

  /** A matrix whose channel `c` holds only 0 or ids of dict `c` of `MapLabelValues(original)`:
      every non-zero id then lives in one channel only. */
  lemma MappedMatrixExclusive(original: seq<set<int>>, mat: LabelMatrix, v: int)
    requires |mat.channels| <= |original|
    requires forall c, p | 0 <= c < |mat.channels| && 0 <= p < |mat.channels[c]| ::
      mat.channels[c][p] == 0 || mat.channels[c][p] in MapLabelValues(original)[c].Values
    requires v != 0
    ensures ChannelExclusive(mat, v)
  {
    var r := MapLabelValues(original);
    forall c, d, p, q | 0 <= c < |mat.channels| && 0 <= d < |mat.channels| && 0 <= p < |mat.channels[c]| && 0 <= q < |mat.channels[d]|
      && mat.channels[c][p] == v && mat.channels[d][q] == v
      ensures c == d
    {
      ValueHasKey(r[c], v);
      ValueHasKey(r[d], v);
      var u :| u in r[c] && r[c][u] == v;
      var w :| w in r[d] && r[d][w] == v;
      IdsUsedOnce(original, c, d, u, w);
    }
  }

  /** For a label matrix whose channel `c` holds only 0 or ids of dict `c` of the mapping, the
      mask of `label_tile` over the whole image marks as many cells as `label_count_for_image`
      reports for `v`. */
  lemma MaskCountMatchesHistogram(original: seq<set<int>>, mat: LabelMatrix, v: int)
    requires |mat.channels| <= |original|
    requires forall c, p | 0 <= c < |mat.channels| && 0 <= p < |mat.channels[c]| ::
      mat.channels[c][p] == 0 || mat.channels[c][p] in MapLabelValues(original)[c].Values
    requires v in LabelCount(mat)
    ensures TrueCount(LabelMask(mat, v)) == LabelCount(mat)[v]
  {
    MappedMatrixExclusive(original, mat, v);
    MaskCountIsLabelCount(mat, v);
  }
}
