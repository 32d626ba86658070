/** The retry loop of ShippingManager on top of the file store: a holder is one file, a failed file becomes available
    again and is the next one to be tried, and a delivered file is deleted with its holder. */
module FileSendLoop {
  import opened Common
  import opened FileObservationStore
  import SendLoop

  /** The active file has something that finalizing would save. */
  predicate Unsaved(st: Store, setup: Setup) { st.open && 0 < FileSize(st.active, setup) }

  /** The finalized files, with the active one under the name that it will get. */
  function Files(st: Store, name: FileName, setup: Setup): map<FileName, seq<Record>> {
    if Unsaved(st, setup) then st.disk[name := st.active] else st.disk
  }

  /** The files that no holder has. */
  function Waiting(st: Store, name: FileName, setup: Setup): set<FileName> {
    set f | f in Files(st, name, setup) && f !in st.taken
  }

  /** The name is a new one as long as it may be needed. */
  predicate NameFree(st: Store, name: FileName, setup: Setup) {
    Unsaved(st, setup) ==> name !in st.disk && name !in st.taken
  }

  ghost predicate Ready(st: Store, name: FileName, setup: Setup) { BytesTracked(st, setup) && NameFree(st, name, setup) }

  lemma FinalizedIsOldest(st: Store, name: FileName, setup: Setup)
    requires Ready(st, name, setup) && Unsaved(st, setup) && NoneAvailable(st)
    ensures var st' := Finalize(st, name, setup).0;
            Ready(st', name, setup) && Files(st', name, setup) == Files(st, name, setup) && Oldest(st') == Some(name) && IsOldest(st', name)
  {
    FinalizeTracks(st, name, setup);
    OldestIsUnique(Finalize(st, name, setup).0, name);
  }

  /** Taking the next holder: the oldest waiting file, the active one last. */
  lemma TakeFiles(st: Store, name: FileName, setup: Setup)
    requires Ready(st, name, setup)
    ensures var (st', f, _) := TakeStep(st, name, setup);
            && Ready(st', name, setup) && Files(st', name, setup) == Files(st, name, setup)
            && (f.None? ==> st' == st && Waiting(st, name, setup) == {})
            && (f.Some? ==> && f.value in Waiting(st, name, setup) && st'.taken == st.taken + {f.value} && f.value in st'.disk
                            && IsOldest(st'.(taken := st.taken), f.value)
                            && (IsOldest(st, f.value) || (NoneAvailable(st) && f.value == name)))
  {
    OldestIsUnique(st, 0);
    if Oldest(st).None? && Unsaved(st, setup) {
      FinalizedIsOldest(st, name, setup);
    }
  }

  lemma DestroyTaken(st: Store, f: FileName, name: FileName, setup: Setup)
    requires Ready(st, name, setup) && f in st.disk
    ensures var st' := DestroyFiles(st, {f}, setup);
            Ready(st', name, setup) && st'.taken == st.taken && Files(st', name, setup) == Files(st, name, setup) - {f}
  {
    DestroyEffect(st, {f}, setup);
    assert Unsaved(st, setup) ==> f != name;
  }

  /** One round of the loop. */
  method AttemptFile(store: FileStore, name: FileName, delivered: bool) returns (file: Option<FileName>)
    requires Ready(store.Value(), name, store.setup)
    modifies store
    ensures Ready(store.Value(), name, store.setup)
    ensures file.None? ==> store.Value() == old(store.Value()) && Waiting(store.Value(), name, store.setup) == {}
    ensures file.Some? ==>
              && file.value in Waiting(old(store.Value()), name, store.setup)
              && (IsOldest(old(store.Value()), file.value) || (NoneAvailable(old(store.Value())) && file.value == name))
    ensures file.Some? && delivered ==>
              && store.taken == old(store.taken) + {file.value}
              && Files(store.Value(), name, store.setup) == Files(old(store.Value()), name, store.setup) - {file.value}
    ensures file.Some? && !delivered ==>
              && store.taken == old(store.taken) && IsOldest(store.Value(), file.value)
              && Files(store.Value(), name, store.setup) == Files(old(store.Value()), name, store.setup)
  {
    ghost var before := store.Value();
    TakeFiles(before, name, store.setup);
    ghost var finalized;
    file, finalized := store.TakeNextEnvelopeHolder(name);
    if file.Some? {
      if delivered {
        DestroyTaken(store.Value(), file.value, name, store.setup);
        store.DestroyHolder({file.value});
      } else {
        ghost var held := store.Value();
        store.ReturnEnvelopeHolder({file.value});
        assert store.Value() == held.(taken := before.taken) by {
          assert held.taken - {file.value} == before.taken;
        }
      }
    }
  }

  /** The oldest file first, and the active one after all others. */
  predicate InOrder(sent: seq<FileName>, name: FileName) {
    forall i, j :: 0 <= i < j < |sent| ==> sent[i] < sent[j] || sent[j] == name
  }

  /** A file that was not delivered is the next one to be tried. */
  predicate Retried(tried: seq<FileName>, outcomes: seq<bool>) {
    |tried| == |outcomes| && forall i :: 0 <= i < |tried| - 1 && !outcomes[i] ==> tried[i + 1] == tried[i]
  }

  /** What waits is newer than what was sent. */
  predicate Newer(waiting: set<FileName>, sent: seq<FileName>, name: FileName) {
    forall f, i :: f in waiting && f != name && 0 <= i < |sent| ==> sent[i] < f
  }

  function Elements(s: seq<FileName>): set<FileName> { set f | f in s }

  /** What a run of the loop has done so far: the files that were there at the start are still there, except for those
      that were sent, each once and the oldest first. */
  ghost predicate Progress(start: Store, st: Store, name: FileName, setup: Setup, sent: seq<FileName>) {
    && Ready(st, name, setup)
    && Files(st, name, setup) == Files(start, name, setup) - Elements(sent)
    && st.taken == start.taken + Elements(sent)
    && Elements(sent) <= Waiting(start, name, setup) && NoDuplicates(sent)
    && InOrder(sent, name) && Newer(Waiting(st, name, setup), sent, name)
  }

  lemma Delivered(start: Store, before: Store, after: Store, name: FileName, setup: Setup, sent: seq<FileName>, f: FileName)
    requires Progress(start, before, name, setup, sent) && f in Waiting(before, name, setup)
    requires IsOldest(before, f) || (NoneAvailable(before) && f == name)
    requires Ready(after, name, setup) && after.taken == before.taken + {f}
    requires Files(after, name, setup) == Files(before, name, setup) - {f}
    ensures Progress(start, after, name, setup, sent + [f])
    ensures Waiting(after, name, setup) == Waiting(before, name, setup) - {f}
  {
    var sent' := sent + [f];
    assert Elements(sent') == Elements(sent) + {f};
    assert Files(after, name, setup) == Files(start, name, setup) - Elements(sent');
    assert InOrder(sent', name) by {
      assert f == name || forall i :: 0 <= i < |sent| ==> sent[i] < f;
    }
    assert Waiting(after, name, setup) == Waiting(before, name, setup) - {f};
    forall g, i | g in Waiting(after, name, setup) && g != name && 0 <= i < |sent'| ensures sent'[i] < g {
      assert g in Waiting(before, name, setup) && g in before.disk;
      assert i < |sent| ==> sent'[i] == sent[i];
    }
  }

  lemma Failed(start: Store, before: Store, after: Store, name: FileName, setup: Setup, sent: seq<FileName>)
    requires Progress(start, before, name, setup, sent) && Ready(after, name, setup)
    requires after.taken == before.taken && Files(after, name, setup) == Files(before, name, setup)
    ensures Progress(start, after, name, setup, sent) && Waiting(after, name, setup) == Waiting(before, name, setup)
  {
  }

  /** One round of the loop, with the list of what was sent. */
  method Round(store: FileStore, name: FileName, delivered: bool, ghost start: Store, sent: seq<FileName>)
    returns (file: Option<FileName>, sent': seq<FileName>)
    requires Progress(start, store.Value(), name, store.setup, sent)
    modifies store
    ensures Progress(start, store.Value(), name, store.setup, sent')
    ensures file.None? ==> sent' == sent && Waiting(store.Value(), name, store.setup) == {}
    ensures file.Some? && delivered ==> sent' == sent + [file.value]
    ensures file.Some? && delivered ==> Waiting(store.Value(), name, store.setup) < old(Waiting(store.Value(), name, store.setup))
    ensures file.Some? && !delivered ==> sent' == sent && IsOldest(store.Value(), file.value)
    ensures file.Some? && !delivered ==> Waiting(store.Value(), name, store.setup) == old(Waiting(store.Value(), name, store.setup))
    ensures forall f: FileName :: IsOldest(old(store.Value()), f) ==> file == Some(f)
  {
    ghost var before := store.Value();
    sent' := sent;
    file := AttemptFile(store, name, delivered);
    if file.Some? {
      if delivered {
        Delivered(start, before, store.Value(), name, store.setup, sent, file.value);
        sent' := sent + [file.value];
      } else {
        Failed(start, before, store.Value(), name, store.setup, sent);
      }
    }
    forall f: FileName | IsOldest(before, f) ensures file == Some(f) {
      assert f in Waiting(before, name, store.setup);
    }
  }

  /** The outcomes after one more round. */
  lemma RoundRecorded(tried: seq<FileName>, outcomes: seq<bool>, file: FileName, delivered: bool, backend: nat -> bool)
    requires SendLoop.Faithful(outcomes, backend) && delivered == backend(|outcomes|)
    requires SendLoop.TrailingFailures(outcomes) < SendLoop.MAX_FAILURES_WITHOUT_SUCCESS
    requires Retried(tried, outcomes) && (outcomes != [] && !outcomes[|outcomes| - 1] ==> file == tried[|tried| - 1])
    ensures SendLoop.Faithful(outcomes + [delivered], backend) && Retried(tried + [file], outcomes + [delivered])
    ensures SendLoop.TrailingFailures(outcomes + [delivered]) == if delivered then 0 else 1 + SendLoop.TrailingFailures(outcomes)
    ensures SendLoop.AllSucceeded(outcomes + [delivered]) <==> SendLoop.AllSucceeded(outcomes) && delivered
  {
    SendLoop.TrailingStep(outcomes, delivered);
    SendLoop.FaithfulStep(outcomes, backend);
    var all := outcomes + [delivered];
    if SendLoop.AllSucceeded(all) {
      assert all[|outcomes|] && forall i :: 0 <= i < |outcomes| ==> all[i] == outcomes[i];
    }
  }

  /** SendAllEnvelopes with the file store, when nothing is added concurrently. The loop ends for every backend. Every file
      that no holder had at the start, the active one included, was either sent and deleted, once, or is still there
      with its content; they go out oldest first, and a file that fails is tried again before any other. The callbacks
      are told success exactly when every attempt succeeded, and then no file waits. */
  method SendAllFiles(store: FileStore, name: FileName, disabled: bool, backend: nat -> bool)
    returns (success: Option<bool>, sent: seq<FileName>, tried: seq<FileName>, outcomes: seq<bool>)
    requires Ready(store.Value(), name, store.setup)
    modifies store
    ensures Progress(old(store.Value()), store.Value(), name, store.setup, sent)
    ensures disabled ==> success == None && tried == [] && store.Value() == old(store.Value())
    ensures !disabled ==> success.Some? && (success.value <==> SendLoop.AllSucceeded(outcomes))
    ensures !disabled ==> Waiting(store.Value(), name, store.setup) == {}
                          || SendLoop.TrailingFailures(outcomes) == 3
    ensures !disabled && success.value ==> Waiting(store.Value(), name, store.setup) == {} && sent == tried
    ensures SendLoop.Faithful(outcomes, backend) && Retried(tried, outcomes)
  {
    sent, tried, outcomes := [], [], [];
    ghost var start := store.Value();
    assert Elements(sent) == {} && Files(start, name, store.setup) - {} == Files(start, name, store.setup);
    if disabled {
      return None, sent, tried, outcomes;
    }
    var ok := true;
    var failures := 0;
    while true
      invariant Progress(start, store.Value(), name, store.setup, sent)
      invariant ok <==> SendLoop.AllSucceeded(outcomes)
      invariant ok ==> sent == tried
      invariant failures == SendLoop.TrailingFailures(outcomes) < SendLoop.MAX_FAILURES_WITHOUT_SUCCESS
      invariant SendLoop.Faithful(outcomes, backend) && Retried(tried, outcomes)
      invariant outcomes != [] && !outcomes[|outcomes| - 1] ==> IsOldest(store.Value(), tried[|tried| - 1])
      decreases Waiting(store.Value(), name, store.setup), SendLoop.MAX_FAILURES_WITHOUT_SUCCESS - failures
    {
      var delivered := backend(|outcomes|);
      var file;
      file, sent := Round(store, name, delivered, start, sent);
      if file.None? {
        break;
      }
      RoundRecorded(tried, outcomes, file.value, delivered, backend);
      outcomes, tried := outcomes + [delivered], tried + [file.value];
      if delivered {
        failures := 0;
      } else {
        ok := false;
        failures := failures + 1;
      }
      if failures >= SendLoop.MAX_FAILURES_WITHOUT_SUCCESS {
        break;
      }
    }
    success := Some(ok);
  }
}
