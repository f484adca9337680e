/** The label value mapping of a connector: for every label channel the raw label values found
    on disk are sorted and numbered by one counter shared by all channels, so that the ids
    seen downstream are 1, 2, ..., N and never collide between channels. */
module LabelValues {

  /** `s` is sorted ascending and holds no value twice. */
  predicate StrictlyIncreasing(s: seq<int>) {
    forall i, j | 0 <= i < j < |s| :: s[i] < s[j]
  }

  /** Number of raw values of the channels `i`, ..., `j - 1`. */
  function Between(channels: seq<set<int>>, i: nat, j: nat): nat
    requires i <= j <= |channels|
    decreases j - i
  {
    if i == j then 0 else |channels[i]| + Between(channels, i + 1, j)
  }

  /** Total number of raw values over all channels: the last id the shared counter hands out. */
  function TotalSize(channels: seq<set<int>>): nat {
    Between(channels, 0, |channels|)
  }

  /** `m` is the least value of `s`. */
  predicate IsLeast(m: int, s: set<int>) {
    m in s && forall x | x in s :: m <= x
  }

  lemma NonEmptyHasElement(s: set<int>)
    requires s != {}
    ensures exists y :: y in s
  {
    if forall y :: y !in s {
      assert false;
    }
  }

  lemma {:induction false} LeastExists(s: set<int>)
    requires s != {}
    ensures exists m :: IsLeast(m, s)
    decreases |s|
  {
    NonEmptyHasElement(s);
    var y :| y in s;
    if s == {y} {
      assert IsLeast(y, s);
    } else {
      var t := s - {y};
      LeastExists(t);
      var m :| IsLeast(m, t);
      var least := if y < m then y else m;
      forall x | x in s ensures least <= x {
        if x != y { assert x in t; }
      }
      assert IsLeast(least, s);
    }
  }

  /** The least element of a non-empty set of label values. */
  function Least(s: set<int>): (m: int)
    requires s != {}
    ensures IsLeast(m, s)
  {
    LeastExists(s);
    var m :| IsLeast(m, s);
    m
  }

  /** Python's `sorted` applied to a set of label values. */
  function Sorted(s: set<int>): (r: seq<int>)
    ensures |r| == |s|
    ensures forall x {:trigger x in r} :: x in r <==> x in s
    ensures StrictlyIncreasing(r)
    decreases s
  {
    if s == {} then []
    else
      var m := Least(s);
      var rest := Sorted(s - {m});
      PrependLeast(s, m, rest);
      [m] + rest
  }

  /** Putting the least value in front of the sorted rest keeps the order. */
  lemma PrependLeast(s: set<int>, m: int, rest: seq<int>)
    requires IsLeast(m, s)
    requires forall x :: x in rest <==> x in s - {m}
    requires StrictlyIncreasing(rest)
    ensures forall x :: x in [m] + rest <==> x in s
    ensures StrictlyIncreasing([m] + rest)
  {
    var r := [m] + rest;
    forall x ensures x in r <==> x in s {
      assert x in r <==> x == m || x in rest;
    }
    forall i, j | 0 <= i < j < |r| ensures r[i] < r[j] {
      assert r[j] == rest[j - 1] && rest[j - 1] in rest;
    }
  }

  /** A strictly increasing sequence holding exactly the values of `s` is `Sorted(s)`. */
  lemma {:induction false} SortedUnique(s: set<int>, q: seq<int>)
    requires StrictlyIncreasing(q)
    requires forall x :: x in q <==> x in s
    ensures q == Sorted(s)
    decreases |q|
  {
    if q == [] {
      NoMembersEmpty(s);
    } else {
      assert q[0] in q;
      var m := Least(s);
      HeadIsLeast(s, q, m);
      TailHoldsTheRest(s, q);
      SortedUnique(s - {m}, q[1..]);
      SortedCons(s);
      assert q == [q[0]] + q[1..];
    }
  }

  lemma NoMembersEmpty(s: set<int>)
    requires forall x :: x !in s
    ensures s == {}
  {
    assert forall x :: x in s <==> x in {};
  }

  lemma SortedCons(s: set<int>)
    requires s != {}
    ensures Sorted(s) == [Least(s)] + Sorted(s - {Least(s)})
  {
  }

  lemma HeadIsLeast(s: set<int>, q: seq<int>, m: int)
    requires StrictlyIncreasing(q) && q != []
    requires forall x :: x in q <==> x in s
    requires IsLeast(m, s)
    ensures q[0] == m
  {
    assert m in q;
    var i :| 0 <= i < |q| && q[i] == m;
    assert q[0] <= q[i];
    assert q[0] in s;
  }

  lemma TailHoldsTheRest(s: set<int>, q: seq<int>)
    requires StrictlyIncreasing(q) && q != []
    requires forall x :: x in q <==> x in s
    ensures StrictlyIncreasing(q[1..])
    ensures forall x :: x in q[1..] <==> x in s - {q[0]}
  {
    forall x ensures x in q[1..] <==> x in s - {q[0]} {
      if x in q[1..] {
        var i :| 1 <= i < |q| && q[i] == x;
        assert q[0] < q[i];
        assert x in q;
      }
      if x in s - {q[0]} {
        assert x in q;
        var i :| 0 <= i < |q| && q[i] == x;
        assert q[1..][i - 1] == x;
      }
    }
  }

  /** The dict comprehension `{ l: next(counter) for l in sorted(labels) }` entered with the
      counter at `next`: the values are visited smallest first, and each draws the counter's
      current number before the counter advances. */
  function ChannelIds(labels: set<int>, next: int): (m: map<int, int>)
    ensures forall x {:trigger x in m} :: x in m <==> x in labels
    ensures forall k | k in m :: next <= m[k] < next + |labels|
    decreases |labels|
  {
    if labels == {} then map[]
    else
      var least := Least(labels);
      ChannelIds(labels - {least}, next + 1)[least := next]
  }

  /** The `i`-th smallest value of the channel receives `next + i`. */
  lemma {:induction false} ChannelIdsAt(labels: set<int>, next: int, i: int)
    requires 0 <= i < |labels|
    ensures Sorted(labels)[i] in ChannelIds(labels, next)
    ensures ChannelIds(labels, next)[Sorted(labels)[i]] == next + i
    decreases |labels|
  {
    var least := Least(labels);
    var rest := labels - {least};
    assert Sorted(labels) == [least] + Sorted(rest);
    if i > 0 {
      ChannelIdsAt(rest, next + 1, i - 1);
      var y := Sorted(rest)[i - 1];
      assert y in Sorted(rest);
      assert y != least;
    }
  }

  /** The outer list comprehension of `map_label_values` over the channels from `i` on, entered
      with the shared counter at `next`: one dict per channel, numbering the channel's sorted raw
      values, after which the counter has advanced by the channel's size. */
  function MapFrom(channels: seq<set<int>>, i: nat, next: int): (r: seq<map<int, int>>)
    requires i <= |channels|
    ensures |r| == |channels| - i
    decreases |channels| - i
  {
    if i == |channels| then []
    else [ChannelIds(channels[i], next)] + MapFrom(channels, i + 1, next + |channels[i]|)
  }

  /** `map_label_values`: the counter `itertools.count(1)` starts at 1. */
  function MapLabelValues(original: seq<set<int>>): (r: seq<map<int, int>>)
    ensures |r| == |original|
    ensures forall c, k | 0 <= c < |original| :: k in r[c] <==> k in original[c]
  {
    var r := MapFrom(original, 0, 1);
    assert forall c, k | 0 <= c < |original| :: k in r[c] <==> k in original[c] by {
      forall c | 0 <= c < |original| ensures forall k :: k in r[c] <==> k in original[c] {
        MapFromAt(original, 0, 1, c);
      }
    }
    r
  }

  /** Every id handed out by the mapping, over all channels. */
  function Ids(mapping: seq<map<int, int>>): set<int> {
    set c, k | 0 <= c < |mapping| && k in mapping[c] :: mapping[c][k]
  }

  /** `is_labelvalue_valid` over a mapping: the value is one of the mapped ids (a dict value),
      not one of the raw values (the dict keys). */
  predicate IsMappedId(mapping: seq<map<int, int>>, v: int) {
    exists c | 0 <= c < |mapping| :: v in mapping[c].Values
  }

  /** The flattened set of dict values and the membership test agree. */
  lemma IdsAreMapped(mapping: seq<map<int, int>>, v: int)
    ensures v in Ids(mapping) <==> IsMappedId(mapping, v)
  {
    if IsMappedId(mapping, v) {
      var c :| 0 <= c < |mapping| && v in mapping[c].Values;
      ValueHasKey(mapping[c], v);
    }
  }

  lemma {:induction false} BetweenSplit(channels: seq<set<int>>, i: nat, j: nat, k: nat)
    requires i <= j <= k <= |channels|
    ensures Between(channels, i, j) + Between(channels, j, k) == Between(channels, i, k)
    decreases j - i
  {
    if i < j {
      BetweenSplit(channels, i + 1, j, k);
    }
  }

  lemma MapFromStep(channels: seq<set<int>>, i: nat, next: int, c: nat)
    requires i < c < |channels|
    ensures MapFrom(channels, i, next)[c - i] == MapFrom(channels, i + 1, next + |channels[i]|)[c - (i + 1)]
  {
    var rest := MapFrom(channels, i + 1, next + |channels[i]|);
    assert MapFrom(channels, i, next) == [ChannelIds(channels[i], next)] + rest;
    assert ([ChannelIds(channels[i], next)] + rest)[c - i] == rest[c - i - 1];
  }

  lemma MapFromHead(channels: seq<set<int>>, i: nat, next: int)
    requires i < |channels|
    ensures MapFrom(channels, i, next)[0] == ChannelIds(channels[i], next + Between(channels, i, i))
  {
  }

  /** The dict that the numbering from channel `i` on builds for channel `c` starts at `next`
      plus the sizes of the channels it passed over. */
  lemma MapFromAt(channels: seq<set<int>>, i: nat, next: int, c: nat)
    requires i <= c < |channels|
    ensures MapFrom(channels, i, next)[c - i] == ChannelIds(channels[c], next + Between(channels, i, c))
  {
    MapFromSkip(channels, i, next, c);
    MapFromHead(channels, c, next + Between(channels, i, c));
  }

  /** Skipping from channel `i` to channel `c` advances the counter by the sizes in between. */
  lemma {:induction false} MapFromSkip(channels: seq<set<int>>, i: nat, next: int, c: nat)
    requires i <= c < |channels|
    ensures MapFrom(channels, i, next)[c - i] == MapFrom(channels, c, next + Between(channels, i, c))[0]
    decreases c - i
  {
    if i < c {
      var after := next + |channels[i]|;
      MapFromStep(channels, i, next, c);
      MapFromSkip(channels, i + 1, after, c);
      assert after + Between(channels, i + 1, c) == next + Between(channels, i, c);
    }
  }

  /** Reference definition of the mapping: channel `c` numbers its sorted raw values starting
      right after the ids of all earlier channels. */
  lemma ChannelNumbering(original: seq<set<int>>, c: nat)
    requires c < |original|
    ensures MapLabelValues(original)[c] == ChannelIds(original[c], 1 + Between(original, 0, c))
  {
    MapFromAt(original, 0, 1, c);
    assert c - 0 == c;
  }

  /** The id of the `i`-th smallest raw value of channel `c` is one plus the number of raw values
      of all earlier channels plus `i`. */
  lemma IdOfRank(original: seq<set<int>>, c: nat, i: int)
    requires c < |original| && 0 <= i < |original[c]|
    ensures Sorted(original[c])[i] in MapLabelValues(original)[c]
    ensures MapLabelValues(original)[c][Sorted(original[c])[i]] == 1 + Between(original, 0, c) + i
  {
    assert Sorted(original[c])[i] in Sorted(original[c]);
    var start := 1 + Between(original, 0, c);
    var ids := ChannelIds(original[c], start);
    ChannelNumbering(original, c);
    ChannelIdsAt(original[c], start, i);
    assert ids[Sorted(original[c])[i]] == start + i;
  }

  /** The ids of channel `c` lie in `[1 + Between(0, c), 1 + Between(0, c + 1))`. */
  lemma IdRange(original: seq<set<int>>, c: nat, u: int)
    requires c < |original| && u in original[c]
    ensures 1 + Between(original, 0, c) <= MapLabelValues(original)[c][u] < 1 + Between(original, 0, c + 1)
  {
    ChannelNumbering(original, c);
    BetweenSplit(original, 0, c, c + 1);
  }

  /** Within one channel the id increases strictly with the raw value. */
  lemma OrderWithinChannel(original: seq<set<int>>, c: nat, u: int, v: int)
    requires c < |original|
    requires u in original[c] && v in original[c] && u < v
    ensures MapLabelValues(original)[c][u] < MapLabelValues(original)[c][v]
  {
    var sorted := Sorted(original[c]);
    assert u in sorted && v in sorted;
    var i :| 0 <= i < |sorted| && sorted[i] == u;
    var j :| 0 <= j < |sorted| && sorted[j] == v;
    assert i < j;
    IdOfRank(original, c, i);
    IdOfRank(original, c, j);
  }

  /** Every id of channel `c` is smaller than every id of a later channel `d`. */
  lemma OrderAcrossChannels(original: seq<set<int>>, c: nat, d: nat, u: int, v: int)
    requires c < d < |original|
    requires u in original[c] && v in original[d]
    ensures MapLabelValues(original)[c][u] < MapLabelValues(original)[d][v]
  {
    IdRange(original, c, u);
    IdRange(original, d, v);
    BetweenSplit(original, 0, c + 1, d);
  }

  /** No id is used twice, whether within one channel or across channels. */
  lemma IdsUsedOnce(original: seq<set<int>>, c: nat, d: nat, u: int, v: int)
    requires c < |original| && d < |original|
    requires u in original[c] && v in original[d]
    requires MapLabelValues(original)[c][u] == MapLabelValues(original)[d][v]
    ensures c == d && u == v
  {
    if c < d {
      OrderAcrossChannels(original, c, d, u, v);
    } else if d < c {
      OrderAcrossChannels(original, d, c, v, u);
    } else if u < v {
      OrderWithinChannel(original, c, u, v);
    } else if v < u {
      OrderWithinChannel(original, c, v, u);
    }
  }

  /** Every count `k` below the number of raw values of the first `m` channels falls inside the
      id block of one of those channels. */
  lemma {:induction false} Locate(original: seq<set<int>>, m: nat, k: int)
    requires m <= |original| && 0 <= k < Between(original, 0, m)
    ensures exists c :: 0 <= c < m && Between(original, 0, c) <= k < Between(original, 0, c) + |original[c]|
    decreases m
  {
    BetweenSplit(original, 0, m - 1, m);
    if k < Between(original, 0, m - 1) {
      Locate(original, m - 1, k);
    } else {
      assert Between(original, 0, m - 1) <= k < Between(original, 0, m - 1) + |original[m - 1]|;
    }
  }

  /** Every number 1..N the counter hands out is the id of some raw value. */
  lemma Onto(original: seq<set<int>>, k: int)
    requires 1 <= k <= TotalSize(original)
    ensures exists c, u :: 0 <= c < |original| && u in original[c] && MapLabelValues(original)[c][u] == k
  {
    Locate(original, |original|, k - 1);
    var c :| 0 <= c < |original| && Between(original, 0, c) <= k - 1 < Between(original, 0, c) + |original[c]|;
    var i := k - 1 - Between(original, 0, c);
    var u := Sorted(original[c])[i];
    assert u in Sorted(original[c]);
    IdOfRank(original, c, i);
  }

  /** The ids used over all channels are exactly 1, 2, ..., N, where N is the number of raw
      values over all channels. */
  lemma IdsAreOneToN(original: seq<set<int>>)
    ensures forall k :: k in Ids(MapLabelValues(original)) <==> 1 <= k <= TotalSize(original)
  {
    var r := MapLabelValues(original);
    forall k ensures k in Ids(r) <==> 1 <= k <= TotalSize(original) {
      if k in Ids(r) {
        var c, u :| 0 <= c < |r| && u in r[c] && r[c][u] == k;
        IdRange(original, c, u);
        BetweenSplit(original, 0, c + 1, |original|);
      }
      if 1 <= k <= TotalSize(original) {
        Onto(original, k);
        var c, u :| 0 <= c < |original| && u in original[c] && r[c][u] == k;
        assert k in Ids(r);
      }
    }
  }

  lemma ValueHasKey(m: map<int, int>, v: int)
    requires v in m.Values
    ensures exists u :: u in m && m[u] == v
  {
    if forall u | u in m :: m[u] != v {
      assert false;
    }
  }

  /** A mapped id lies in 1..N. */
  lemma MappedIdInRange(original: seq<set<int>>, v: int)
    requires IsMappedId(MapLabelValues(original), v)
    ensures 1 <= v <= TotalSize(original)
  {
    var r := MapLabelValues(original);
    var c :| 0 <= c < |r| && v in r[c].Values;
    ValueHasKey(r[c], v);
    var u :| u in r[c] && r[c][u] == v;
    IdRange(original, c, u);
    BetweenSplit(original, 0, c + 1, |original|);
  }

  /** Every value in 1..N is a mapped id. */
  lemma InRangeIsMapped(original: seq<set<int>>, v: int)
    requires 1 <= v <= TotalSize(original)
    ensures IsMappedId(MapLabelValues(original), v)
  {
    var r := MapLabelValues(original);
    Onto(original, v);
    var c, u :| 0 <= c < |original| && u in original[c] && r[c][u] == v;
    assert v in r[c].Values;
  }

  /** `is_labelvalue_valid` holds exactly for the values 1..N once the mapping is built. */
  lemma IsMappedIdIff(original: seq<set<int>>, v: int)
    ensures IsMappedId(MapLabelValues(original), v) <==> 1 <= v <= TotalSize(original)
  {
    if IsMappedId(MapLabelValues(original), v) {
      MappedIdInRange(original, v);
    }
    if 1 <= v <= TotalSize(original) {
      InRangeIsMapped(original, v);
    }
  }

  /** Given the channel's values in increasing order, the dict numbers them in that order. */
  lemma ChannelIdsInOrder(labels: set<int>, q: seq<int>, next: int)
    requires StrictlyIncreasing(q)
    requires forall x :: x in q <==> x in labels
    ensures forall i | 0 <= i < |q| :: q[i] in ChannelIds(labels, next) && ChannelIds(labels, next)[q[i]] == next + i
  {
    SortedUnique(labels, q);
    forall i | 0 <= i < |q|
      ensures q[i] in ChannelIds(labels, next) && ChannelIds(labels, next)[q[i]] == next + i
    {
      ChannelIdsAt(labels, next, i);
    }
  }

  /** A channel with raw values {90, 91, 100, 109} entered with the counter at 1. */
  lemma ChannelIdsExample(labels: set<int>)
    requires labels == {90, 91, 100, 109}
    ensures ChannelIds(labels, 1) == map[90 := 1, 91 := 2, 100 := 3, 109 := 4]
  {
    var q := [90, 91, 100, 109];
    assert forall x :: x in q <==> x in labels;
    ChannelIdsInOrder(labels, q, 1);
    SameMap(ChannelIds(labels, 1), map[90 := 1, 91 := 2, 100 := 3, 109 := 4]);
  }

  /** Two maps with the same keys and the same value at every key are equal. */
  lemma SameMap(m: map<int, int>, e: map<int, int>)
    requires forall k :: k in m <==> k in e
    requires forall k | k in e :: m[k] == e[k]
    ensures m == e
  {
    assert forall k :: k in m <==> k in e;
    assert forall k | k in e :: m[k] == e[k];
  }

  /** The ids of the first example channel {90, 91, 100, 109}. */
  lemma FirstChannelExample(channels: seq<set<int>>)
    requires channels == [{90, 91, 100, 109}, {5}]
    ensures MapLabelValues(channels)[0] == map[90 := 1, 91 := 2, 100 := 3, 109 := 4]
  {
    ChannelNumbering(channels, 0);
    assert Between(channels, 0, 0) == 0;
    ChannelIdsExample(channels[0]);
  }

  /** The id of the second example channel {5} continues the count after the first channel. */
  lemma SecondChannelExample(channels: seq<set<int>>)
    requires channels == [{90, 91, 100, 109}, {5}]
    ensures MapLabelValues(channels)[1] == map[5 := 5]
  {
    var r := MapLabelValues(channels);
    SortedUnique(channels[1], [5]);
    assert Between(channels, 0, 1) == 4;
    IdOfRank(channels, 1, 0);
    assert Sorted(channels[1])[0] == 5;
    assert r[1][5] == 5;
    assert forall k :: k in r[1] <==> k == 5;
  }

  /** Two channels with raw values {90, 91, 100, 109} and {5}: the shared counter numbers the
      first channel 1..4 and continues with 5 in the second. */
  lemma SharedCounterExample()
    ensures MapLabelValues([{90, 91, 100, 109}, {5}]) == [map[90 := 1, 91 := 2, 100 := 3, 109 := 4], map[5 := 5]]
  {
    var channels := [{90, 91, 100, 109}, {5}];
    FirstChannelExample(channels);
    SecondChannelExample(channels);
    var r := MapLabelValues(channels);
    assert |r| == 2;
    assert r == [r[0], r[1]];
  }
}
