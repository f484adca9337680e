/** `original_label_values_for_all_images`: the raw label values of a dataset, one set per label
    channel, gathered image by image. Unlabelled images are skipped; the first labelled image sets
    the channel list and every later one is merged channel by channel with `zip`, which stops at the
    shorter of the two lists. */
module LabelCollection {
  import opened LabelMatrix
  import opened FilePairs
  import opened Dimensions

  /** `[l1.union(l2) for l1, l2 in zip(acc, labels)]`. */
  function ZipUnion(acc: seq<set<int>>, labels: seq<set<int>>): (r: seq<set<int>>)
    ensures |r| == Min(|acc|, |labels|)
    ensures forall c | 0 <= c < |r| :: r[c] == acc[c] + labels[c]
  {
    seq(Min(|acc|, |labels|), c requires 0 <= c < Min(|acc|, |labels|) => acc[c] + labels[c])
  }

  /** One turn of the loop: an unlabelled pair leaves the accumulator alone; a labelled one either
      replaces an empty accumulator or is merged into it. */
  function Step(imp: Importer, acc: seq<set<int>>, p: FilePair): seq<set<int>> {
    match p.lbl
    case None => acc
    case Some(l) =>
      var labels := UniqueLabelsPerChannel(imp.labelImage(l));
      if |acc| == 0 then labels else ZipUnion(acc, labels)
  }

  /** The accumulator after the loop has visited the pairs of `ps` in order. 0 means "no label"
      and is never collected. */
  function Collect(imp: Importer, ps: seq<FilePair>): (r: seq<set<int>>)
    ensures forall c | 0 <= c < |r| :: 0 !in r[c]
    decreases |ps|
  {
    if ps == [] then [] else Step(imp, Collect(imp, ps[..|ps| - 1]), ps[|ps| - 1])
  }

  /** The label channels of a labelled pair's matrix. */
  function Channels(imp: Importer, p: FilePair): seq<seq<int>>
    requires p.lbl.Some?
  {
    imp.labelImage(p.lbl.value).channels
  }

  /** Without a labelled image nothing is collected: the result is the empty list. */
  lemma {:induction false} CollectUnlabelled(imp: Importer, ps: seq<FilePair>)
    requires forall p | p in ps :: p.lbl.None?
    ensures Collect(imp, ps) == []
    decreases |ps|
  {
    if ps != [] {
      var init := ps[..|ps| - 1];
      assert forall p | p in init :: p in ps;
      assert ps[|ps| - 1] in ps;
      CollectUnlabelled(imp, init);
    }
  }

  /** `r` holds `n` sets, and set `c` is the union over the labelled pairs of `ps` of their
      non-zero values in channel `c`. */
  ghost predicate IsUnion(imp: Importer, ps: seq<FilePair>, n: nat, r: seq<set<int>>)
    requires forall p | p in ps && p.lbl.Some? :: |Channels(imp, p)| == n
  {
    |r| == n &&
    forall c, v | 0 <= c < n ::
      v in r[c] <==> v != 0 && exists p | p in ps && p.lbl.Some? :: v in Channels(imp, p)[c]
  }

  /** The loop unfolded at its last pair. */
  lemma CollectLast(imp: Importer, init: seq<FilePair>, last: FilePair)
    ensures Collect(imp, init + [last]) == Step(imp, Collect(imp, init), last)
  {
    var ps := init + [last];
    assert ps[..|ps| - 1] == init;
  }

  /** The first labelled pair sets the channel list. */
  lemma StepFirst(imp: Importer, init: seq<FilePair>, last: FilePair, n: nat)
    requires forall p | p in init :: p.lbl.None?
    requires last.lbl.Some? && |Channels(imp, last)| == n
    ensures forall p | p in init + [last] && p.lbl.Some? :: |Channels(imp, p)| == n
    ensures IsUnion(imp, init + [last], n, Step(imp, [], last))
  {
    var ps := init + [last];
    assert forall p | p in ps :: p in init || p == last;
    forall c, v | 0 <= c < n && v != 0 && exists p | p in ps && p.lbl.Some? :: v in Channels(imp, p)[c]
      ensures v in Channels(imp, last)[c]
    {
      var p :| p in ps && p.lbl.Some? && v in Channels(imp, p)[c];
      assert p == last;
    }
    assert last in ps;
  }

  /** A later labelled pair is merged channel by channel. */
  lemma StepMerge(imp: Importer, init: seq<FilePair>, acc: seq<set<int>>, last: FilePair, n: nat)
    requires forall p | p in init && p.lbl.Some? :: |Channels(imp, p)| == n
    requires last.lbl.Some? && |Channels(imp, last)| == n
    requires exists p | p in init :: p.lbl.Some?
    requires IsUnion(imp, init, n, acc)
    ensures forall p | p in init + [last] && p.lbl.Some? :: |Channels(imp, p)| == n
    ensures IsUnion(imp, init + [last], n, Step(imp, acc, last))
  {
    var ps := init + [last];
    assert forall p | p in ps :: p in init || p == last;
    assert forall p | p in init :: p in ps;
    assert last in ps;
    var labels := UniqueLabelsPerChannel(imp.labelImage(last.lbl.value));
    if n == 0 {
      assert |acc| == 0 && |labels| == 0;
    }
    forall c, v | 0 <= c < n && v != 0 && exists p | p in ps && p.lbl.Some? :: v in Channels(imp, p)[c]
      ensures v in Step(imp, acc, last)[c]
    {
      var p :| p in ps && p.lbl.Some? && v in Channels(imp, p)[c];
      if p != last {
        assert p in init;
      }
    }
  }

  /** An unlabelled pair changes nothing. */
  lemma StepSkip(imp: Importer, init: seq<FilePair>, acc: seq<set<int>>, last: FilePair, n: nat)
    requires forall p | p in init && p.lbl.Some? :: |Channels(imp, p)| == n
    requires last.lbl.None?
    requires IsUnion(imp, init, n, acc)
    ensures forall p | p in init + [last] && p.lbl.Some? :: |Channels(imp, p)| == n
    ensures IsUnion(imp, init + [last], n, Step(imp, acc, last))
  {
    var ps := init + [last];
    assert forall p | p in ps :: p in init || p == last;
    assert forall p | p in init :: p in ps;
  }

  /** With at least one labelled image and `n` label channels in every labelled image, the result
      holds one set per channel, and channel `c`'s set is the union over the labelled images of
      their non-zero values in channel `c`. */
  lemma {:induction false} CollectIsUnion(imp: Importer, ps: seq<FilePair>, n: nat)
    requires exists p | p in ps :: p.lbl.Some?
    requires forall p | p in ps && p.lbl.Some? :: |Channels(imp, p)| == n
    ensures IsUnion(imp, ps, n, Collect(imp, ps))
    decreases |ps|
  {
    var init := ps[..|ps| - 1];
    var last := ps[|ps| - 1];
    assert ps == init + [last];
    assert forall p | p in init :: p in ps;
    CollectLast(imp, init, last);
    if exists p | p in init :: p.lbl.Some? {
      CollectIsUnion(imp, init, n);
      if last.lbl.Some? {
        StepMerge(imp, init, Collect(imp, init), last, n);
      } else {
        StepSkip(imp, init, Collect(imp, init), last, n);
      }
    } else {
      CollectUnlabelled(imp, init);
      assert last in ps;
      StepFirst(imp, init, last, n);
    }
  }

  /** Dropping the unlabelled pairs changes nothing in what is collected. */
  lemma {:induction false} CollectLabeled(imp: Importer, ps: seq<FilePair>)
    ensures Collect(imp, Labeled(ps)) == Collect(imp, ps)
    decreases |ps|
  {
    if ps != [] {
      var init := ps[..|ps| - 1];
      var last := ps[|ps| - 1];
      assert ps == init + [last];
      LabeledAppend(init, [last]);
      CollectLabeled(imp, init);
      CollectLast(imp, init, last);
      if last.lbl.Some? {
        assert Labeled([last]) == [last];
        CollectLast(imp, Labeled(init), last);
      } else {
        assert Labeled([last]) == [];
        assert Labeled(init) + [] == Labeled(init);
      }
    }
  }
}
