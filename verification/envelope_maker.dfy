/** EnvelopeMaker: an in-memory envelope, observations grouped by metadata, with a running byte count
    (envelope_maker.cc). Envelopes are moved, never shared, so they are values here. */
module EnvelopeMaker {
  import opened MapSums

  datatype StoredObservation = StoredObservation(id: nat, size: nat)

  datatype Item = Item(metadata: string, observation: StoredObservation)

  type Batches = map<string, seq<StoredObservation>>

  datatype Envelope = Envelope(batches: Batches, numBytes: nat)

  datatype StoreStatus = StoredOk | ObservationTooBig | StoreFull

  const EMPTY: Envelope := Envelope(map[], 0)

  // ---------------------------------------------------------------- What an envelope holds

  /** How often an envelope holds an item. */
  function Count(batches: Batches, item: Item): nat {
    if item.metadata in batches then multiset(batches[item.metadata])[item.observation] else 0
  }

  function SeqSize(s: seq<StoredObservation>): nat {
    if s == [] then 0 else SeqSize(s[..|s| - 1]) + s[|s| - 1].size
  }

  function BatchSizes(batches: Batches): map<string, nat> {
    map k | k in batches :: SeqSize(batches[k])
  }

  /** The sizes of all the observations. */
  ghost function Size(batches: Batches): nat { Sum(BatchSizes(batches)) }

  lemma SizeSplit(batches: Batches, k: string)
    requires k in batches
    ensures Size(batches) == SeqSize(batches[k]) + Size(batches - {k})
  {
    SumSplit(BatchSizes(batches), k);
    assert BatchSizes(batches) - {k} == BatchSizes(batches - {k});
  }

  lemma EmptySize()
    ensures Size(map[]) == 0
  {
    assert BatchSizes(map[]) == map[];
  }

  lemma {:induction false} SeqSizeAppend(s: seq<StoredObservation>, t: seq<StoredObservation>)
    ensures SeqSize(s + t) == SeqSize(s) + SeqSize(t)
  {
    if t == [] {
      assert s + t == s;
    } else {
      SeqSizeAppend(s, t[..|t| - 1]);
      assert (s + t)[..|s + t| - 1] == s + t[..|t| - 1];
    }
  }

  predicate NoEmptyBatch(batches: Batches) { forall k :: k in batches ==> batches[k] != [] }

  predicate PositiveSizes(batches: Batches) {
    forall k, i :: k in batches && 0 <= i < |batches[k]| ==> 0 < batches[k][i].size
  }

  /** The byte count is the sum of the sizes of what the envelope holds. */
  ghost predicate Sound(e: Envelope) {
    e.numBytes == Size(e.batches) && NoEmptyBatch(e.batches)
  }

  /** With positive sizes, a byte count of 0 means that the envelope holds nothing. */
  lemma ZeroMeansEmpty(e: Envelope)
    requires Sound(e) && PositiveSizes(e.batches)
    ensures e.numBytes == 0 <==> e.batches == map[]
  {
    if e.batches != map[] {
      var k :| k in e.batches;
      SizeSplit(e.batches, k);
      var s := e.batches[k];
      assert 0 < s[|s| - 1].size;
    }
  }

  // ---------------------------------------------------------------- Adding

  function CanAddObservation(e: Envelope, o: StoredObservation, maxObservation: nat, maxEnvelope: nat): StoreStatus {
    if maxObservation < o.size then ObservationTooBig
    else if maxEnvelope < e.numBytes + o.size then StoreFull
    else StoredOk
  }

  function BatchOf(batches: Batches, metadata: string): seq<StoredObservation> {
    if metadata in batches then batches[metadata] else []
  }

  function Add(e: Envelope, item: Item): Envelope {
    Envelope(e.batches[item.metadata := BatchOf(e.batches, item.metadata) + [item.observation]], e.numBytes + item.observation.size)
  }

  /** Replacing a batch changes the size by the difference. */
  lemma GrowBatch(batches: Batches, k: string, s: seq<StoredObservation>)
    ensures Size(batches[k := s]) + SeqSize(BatchOf(batches, k)) == Size(batches) + SeqSize(s)
  {
    SumUpdate(BatchSizes(batches), k, SeqSize(s));
    assert BatchSizes(batches[k := s]) == BatchSizes(batches)[k := SeqSize(s)];
  }

  lemma AddCounts(e: Envelope, item: Item, other: Item)
    ensures Count(Add(e, item).batches, other) == Count(e.batches, other) + if other == item then 1 else 0
  {
  }

  lemma AddSound(e: Envelope, item: Item)
    requires Sound(e)
    ensures Sound(Add(e, item))
  {
    var batch := BatchOf(e.batches, item.metadata);
    GrowBatch(e.batches, item.metadata, batch + [item.observation]);
    SeqSizeAppend(batch, [item.observation]);
    assert SeqSize([item.observation]) == item.observation.size by {
      assert [item.observation][..0] == [];
    }
  }

  // ---------------------------------------------------------------- Merging

  function Reverse(s: seq<StoredObservation>): seq<StoredObservation> {
    if s == [] then [] else [s[|s| - 1]] + Reverse(s[..|s| - 1])
  }

  lemma {:induction false} ReverseKeeps(s: seq<StoredObservation>, o: StoredObservation)
    ensures multiset(Reverse(s))[o] == multiset(s)[o] && SeqSize(Reverse(s)) == SeqSize(s) && |Reverse(s)| == |s|
  {
    if s != [] {
      var front, last := s[..|s| - 1], s[|s| - 1];
      ReverseKeeps(front, o);
      assert s == front + [last];
      SeqSizeAppend([last], Reverse(front));
      assert SeqSize([last]) == last.size by {
        assert [last][..0] == [];
      }
    }
  }

  /** Moves the messages of one batch to the end of another, last one first. */
  method MoveMessages(into: seq<StoredObservation>, from: seq<StoredObservation>) returns (r: seq<StoredObservation>)
    ensures r == into + Reverse(from)
  {
    r := into;
    var rest := from;
    while rest != []
      invariant r + Reverse(rest) == into + Reverse(from)
    {
      assert r + [rest[|rest| - 1]] + Reverse(rest[..|rest| - 1]) == r + Reverse(rest);
      r := r + [rest[|rest| - 1]];
      rest := rest[..|rest| - 1];
    }
    assert r + Reverse(rest) == r;
  }

  /** The batch of `b` for a key, merged into `a`. */
  function MergedBatch(a: Batches, b: Batches, k: string): seq<StoredObservation>
    requires k in b
  {
    if k in a then a[k] + Reverse(b[k]) else b[k]
  }

  function MergeBatches(a: Batches, b: Batches): Batches {
    map k | k in a.Keys + b.Keys :: if k in b then MergedBatch(a, b, k) else a[k]
  }

  function Merge(a: Envelope, b: Envelope): Envelope {
    Envelope(MergeBatches(a.batches, b.batches), a.numBytes + b.numBytes)
  }

  lemma MergeCounts(a: Batches, b: Batches, item: Item)
    ensures Count(MergeBatches(a, b), item) == Count(a, item) + Count(b, item)
  {
    if item.metadata in b {
      ReverseKeeps(b[item.metadata], item.observation);
    }
  }

  lemma MergeStep(a: Batches, b: Batches, k: string)
    requires k in b
    ensures MergeBatches(a, b) == MergeBatches(a, b - {k})[k := MergedBatch(a, b, k)]
    ensures k in MergeBatches(a, b - {k}) <==> k in a
    ensures k in a ==> MergeBatches(a, b - {k})[k] == a[k]
  {
  }

  lemma MergedBatchSize(a: Batches, b: Batches, k: string)
    requires k in b
    ensures SeqSize(MergedBatch(a, b, k)) == SeqSize(BatchOf(a, k)) + SeqSize(b[k])
  {
    if k in a {
      SeqSizeAppend(a[k], Reverse(b[k]));
      ReverseKeeps(b[k], StoredObservation(0, 0));
    }
  }

  lemma {:induction false} MergeSize(a: Batches, b: Batches)
    ensures Size(MergeBatches(a, b)) == Size(a) + Size(b)
    decreases |b|
  {
    if b == map[] {
      assert MergeBatches(a, b) == a;
      EmptySize();
    } else {
      var k :| k in b;
      MergeSize(a, b - {k});
      MergeStep(a, b, k);
      MergedBatchSize(a, b, k);
      GrowBatch(MergeBatches(a, b - {k}), k, MergedBatch(a, b, k));
      SizeSplit(b, k);
    }
  }

  lemma MergeSound(a: Envelope, b: Envelope)
    requires Sound(a) && Sound(b)
    ensures Sound(Merge(a, b))
    ensures PositiveSizes(a.batches) && PositiveSizes(b.batches) ==> PositiveSizes(Merge(a, b).batches)
  {
    MergeSize(a.batches, b.batches);
    forall k | k in Merge(a, b).batches
      ensures Merge(a, b).batches[k] != []
      ensures PositiveSizes(a.batches) && PositiveSizes(b.batches) ==>
                forall i :: 0 <= i < |Merge(a, b).batches[k]| ==> 0 < Merge(a, b).batches[k][i].size
    {
      if k in b.batches {
        ReverseElements(b.batches[k]);
      }
    }
  }

  lemma {:induction false} ReverseElements(s: seq<StoredObservation>)
    ensures |Reverse(s)| == |s|
    ensures forall i :: 0 <= i < |s| ==> Reverse(s)[i] == s[|s| - 1 - i]
  {
    if s != [] {
      ReverseElements(s[..|s| - 1]);
    }
  }

  /** Where each observation of two merged envelopes is: after those of `a`, those of `b` in reverse; a batch that only one of
      them has is as it was. */
  lemma MergedOrder(a: Batches, b: Batches, k: string, i: nat)
    requires k in a && k in b && i < |a[k]| + |b[k]|
    ensures k in MergeBatches(a, b) && |MergeBatches(a, b)[k]| == |a[k]| + |b[k]|
    ensures MergeBatches(a, b)[k][i] == if i < |a[k]| then a[k][i] else b[k][|b[k]| - 1 - (i - |a[k]|)]
  {
    ReverseElements(b[k]);
  }

  /** EnvelopeMaker::MergeWith: one batch of the other envelope after the other. */
  method MergeWith(a: Envelope, b: Envelope) returns (r: Envelope)
    ensures r == Merge(a, b)
  {
    var batches := a.batches;
    var todo := b.batches.Keys;
    while todo != {}
      invariant todo <= b.batches.Keys
      invariant batches.Keys == a.batches.Keys + (b.batches.Keys - todo)
      invariant forall k :: k in batches ==>
                  batches[k] == if k in b.batches && k !in todo then MergedBatch(a.batches, b.batches, k) else a.batches[k]
    {
      var k :| k in todo;
      if k in batches {
        var messages := MoveMessages(batches[k], b.batches[k]);
        batches := batches[k := messages];
      } else {
        batches := batches[k := b.batches[k]];
      }
      todo := todo - {k};
    }
    r := Envelope(batches, a.numBytes + b.numBytes);
  }
}
