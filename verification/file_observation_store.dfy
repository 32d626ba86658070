/** FileObservationStore: observations appended to an active file as a delta-encoded log, files finalized, taken,
    returned, merged and deleted (file_observation_store.cc).

    File names are numbers: a name is a 13-digit timestamp and a 10-digit random number, so that strcmp orders names as
    numbers. Renames and deletes succeed, and a file is a sequence of records. */
module FileObservationStore {
  import opened Common
  import opened MapSums

  type FileName = nat

  datatype Message = Encrypted(payload: nat) | Unencrypted(payload: nat)

  /** A StoredObservation: its message may be unset. */
  datatype Observation = Observation(message: Option<Message>, size: nat)

  datatype Record = Metadata(metadata: string) | Stored(message: Message)

  datatype Item = Item(metadata: string, message: Message)

  /** The limits, and the size that a record takes in a file. */
  datatype Setup = Setup(maxObservation: nat, maxEnvelope: nat, maxTotal: nat, recordSize: Record -> nat)

  datatype StoreStatus = StoredOk | ObservationTooBig | StoreFull | WriteFailed

  /** The Fields record, with the directory. The active file exists exactly while it is open. */
  datatype Store = Store(
    open: bool,
    active: seq<Record>,
    metadataWritten: bool,
    lastMetadata: string,
    taken: set<FileName>,
    finalizedBytes: int,
    disk: map<FileName, seq<Record>>)

  const NEW_STORE: Store := Store(false, [], false, "", {}, 0, map[])

  function FileSize(file: seq<Record>, setup: Setup): nat {
    if file == [] then 0 else FileSize(file[..|file| - 1], setup) + setup.recordSize(file[|file| - 1])
  }

  // ---------------------------------------------------------------- Operations

  /** FinalizeActiveFile, given the name that the generator returns. */
  function Finalize(st: Store, name: FileName, setup: Setup): (Store, bool) {
    var closed := st.(open := false, active := [], metadataWritten := false);
    if !st.open || FileSize(st.active, setup) == 0 then (closed, false)
    else (closed.(disk := st.disk[name := st.active], finalizedBytes := st.finalizedBytes + FileSize(st.active, setup)), true)
  }

  function AppendMetadata(st: Store, metadata: string): Store {
    if st.metadataWritten && metadata == st.lastMetadata then st
    else st.(active := st.active + [Metadata(metadata)], metadataWritten := true, lastMetadata := metadata)
  }

  /** StoreObservation of an enabled store. */
  function StoreStep(st: Store, metadata: string, o: Observation, name: FileName, setup: Setup): (Store, StoreStatus) {
    var opening := st.(open := true);
    if setup.maxObservation < o.size then (opening, ObservationTooBig)
    else if setup.maxTotal < st.finalizedBytes + FileSize(st.active, setup) + o.size then (opening, StoreFull)
    else
      var labelled := AppendMetadata(opening, metadata);
      if o.message.None? then (labelled, WriteFailed)
      else
        var added := labelled.(active := labelled.active + [Stored(o.message.value)]);
        if FileSize(added.active, setup) < setup.maxEnvelope then (added, StoredOk)
        else
          var (finalized, ok) := Finalize(added, name, setup);
          (finalized, if ok then StoredOk else WriteFailed)
  }

  predicate IsAvailable(st: Store, name: FileName) { name in st.disk && name !in st.taken }

  predicate IsOldest(st: Store, name: FileName) {
    IsAvailable(st, name) && forall f :: f in st.disk && f !in st.taken ==> name <= f
  }

  predicate NoneAvailable(st: Store) { forall f :: f in st.disk ==> f in st.taken }

  /** ReturnEnvelopeHolder. */
  function ReturnHolder(st: Store, holder: set<FileName>): Store { st.(taken := st.taken - holder) }

  /** The destructor of a holder, one file after the other; names of files that are gone count for nothing. */
  ghost function DestroyFiles(st: Store, holder: set<FileName>, setup: Setup): Store
    decreases holder
  {
    if holder == {} then st
    else
      var f :| f in holder;
      DestroyFiles(DeleteFile(st, f, setup), holder - {f}, setup)
  }

  function DeleteFile(st: Store, f: FileName, setup: Setup): Store {
    if f !in st.disk then st
    else
      st.(disk := st.disk - {f}, finalizedBytes := st.finalizedBytes - FileSize(st.disk[f], setup))
  }

  // ---------------------------------------------------------------- Byte accounting

  function Sizes(disk: map<FileName, seq<Record>>, setup: Setup): map<FileName, nat> {
    map f | f in disk :: FileSize(disk[f], setup)
  }

  ghost predicate BytesTracked(st: Store, setup: Setup) { st.finalizedBytes == Sum(Sizes(st.disk, setup)) }

  lemma FinalizeTracks(st: Store, name: FileName, setup: Setup)
    requires BytesTracked(st, setup) && name !in st.disk
    ensures BytesTracked(Finalize(st, name, setup).0, setup)
  {
    var size := FileSize(st.active, setup);
    assert Sizes(st.disk[name := st.active], setup) == Sizes(st.disk, setup)[name := size];
    SumUpdate(Sizes(st.disk, setup), name, size);
  }

  /** Deleting a file never subtracts more than there is: the unsigned counter does not wrap. */
  lemma DeleteTracks(st: Store, f: FileName, setup: Setup)
    requires BytesTracked(st, setup)
    ensures BytesTracked(DeleteFile(st, f, setup), setup)
    ensures f in st.disk ==> FileSize(st.disk[f], setup) <= st.finalizedBytes
  {
    if f in st.disk {
      SumSplit(Sizes(st.disk, setup), f);
      assert Sizes(st.disk, setup) - {f} == Sizes(st.disk - {f}, setup);
    }
  }

  lemma DeleteEffect(st: Store, f: FileName, setup: Setup)
    ensures var st' := DeleteFile(st, f, setup); st' == st.(disk := st.disk - {f}, finalizedBytes := st'.finalizedBytes)
  {
    if f !in st.disk {
      assert st.disk - {f} == st.disk;
    }
  }

  lemma RemoveRest(disk: map<FileName, seq<Record>>, holder: set<FileName>, f: FileName)
    requires f in holder
    ensures (disk - {f}) - (holder - {f}) == disk - holder
  {
  }

  /** What the destructor leaves: the files of the holder are gone and nothing else changed. */
  lemma {:induction false} DestroyEffect(st: Store, holder: set<FileName>, setup: Setup)
    requires BytesTracked(st, setup)
    ensures var st' := DestroyFiles(st, holder, setup);
            BytesTracked(st', setup) && st' == st.(disk := st.disk - holder, finalizedBytes := st'.finalizedBytes)
    decreases holder
  {
    if holder == {} {
      assert st.disk - holder == st.disk;
    } else {
      var f :| f in holder && DestroyFiles(st, holder, setup) == DestroyFiles(DeleteFile(st, f, setup), holder - {f}, setup);
      DeleteTracks(st, f, setup);
      DestroyEffect(DeleteFile(st, f, setup), holder - {f}, setup);
      DeleteEffect(st, f, setup);
      RemoveRest(st.disk, holder, f);
    }
  }

  // ---------------------------------------------------------------- The log format

  /** The metadata that the next observation record of a file belongs to. */
  function Current(file: seq<Record>): Option<string> {
    if file == [] then None
    else match file[|file| - 1]
         case Metadata(m) => Some(m)
         case Stored(_) => Current(file[..|file| - 1])
  }

  /** The observations of a file with their metadata; None if an observation comes before any metadata. */
  function Decode(file: seq<Record>): Option<seq<Item>> {
    if file == [] then Some([])
    else
      var front := file[..|file| - 1];
      var items := Decode(front);
      match file[|file| - 1]
      case Metadata(_) => items
      case Stored(o) =>
        if items.None? || Current(front).None? then None else Some(items.value + [Item(Current(front).value, o)])
  }

  lemma DecodeAppend(file: seq<Record>, r: Record)
    ensures Decode(file + [r]) ==
            match r
            case Metadata(_) => Decode(file)
            case Stored(o) =>
              if Decode(file).None? || Current(file).None? then None
              else Some(Decode(file).value + [Item(Current(file).value, o)])
    ensures Current(file + [r]) == if r.Metadata? then Some(r.metadata) else Current(file)
  {
    assert (file + [r])[..|file|] == file;
  }

  /** What the writer remembers about the active file. */
  predicate LogInvariant(st: Store, log: seq<Item>) {
    && Decode(st.active) == Some(log)
    && (st.metadataWritten ==> Current(st.active) == Some(st.lastMetadata))
    && (!st.metadataWritten ==> st.active == [])
    && (!st.open ==> st.active == [])
  }

  /** The records that one call appends decode to exactly the observation it stores, under its own metadata. */
  lemma StoreExtendsLog(st: Store, item: Item, log: seq<Item>)
    requires LogInvariant(st, log)
    ensures var labelled := AppendMetadata(st.(open := true), item.metadata);
            LogInvariant(labelled, log) &&
            LogInvariant(labelled.(active := labelled.active + [Stored(item.message)]), log + [item])
  {
    DecodeAppend(st.active, Metadata(item.metadata));
    var labelled := AppendMetadata(st.(open := true), item.metadata);
    DecodeAppend(labelled.active, Stored(item.message));
  }

  // ---------------------------------------------------------------- Runs

  /** A finalized file and the observations that were stored in it. */
  datatype Closed = Closed(name: FileName, items: seq<Item>)

  datatype Op =
    | StoreObservation(metadata: string, observation: Observation, name: FileName)
    | TakeHolder(name: FileName)
    | Return(index: nat)
    | Merge(into: nat, from: nat)
    | Destroy(index: nat)
    | DeleteData(name: FileName)

  /** The store with its live holders, and the history of what was accepted and into which file it went. */
  datatype System = System(
    store: Store,
    holders: seq<set<FileName>>,
    used: set<FileName>,
    accepted: seq<Item>,
    log: seq<Item>,
    closed: seq<Closed>)

  const NEW_SYSTEM: System := System(NEW_STORE, [], {}, [], [], [])

  ghost function Oldest(st: Store): Option<FileName> {
    if f :| IsOldest(st, f) then Some(f) else None
  }

  lemma {:induction false} Minimum(s: set<FileName>) returns (m: FileName)
    requires s != {}
    ensures m in s && forall x :: x in s ==> m <= x
  {
    m :| m in s;
    var rest := s - {m};
    if rest != {} {
      var n := Minimum(rest);
      assert forall x :: x in s ==> x == m || x in rest;
      m := if m < n then m else n;
    } else {
      assert s == {m};
    }
  }

  /** There is an oldest file unless every file is taken, and only one. */
  lemma OldestIsUnique(st: Store, f: FileName)
    ensures Oldest(st).None? ==> NoneAvailable(st)
    ensures IsOldest(st, f) ==> Oldest(st) == Some(f)
  {
    var available := set g | g in st.disk && g !in st.taken;
    if available != {} {
      var m := Minimum(available);
      forall g | g in st.disk && g !in st.taken ensures m <= g { assert g in available; }
      assert IsOldest(st, m);
    }
    if !NoneAvailable(st) {
      var g :| g in st.disk && g !in st.taken;
      assert g in available;
    }
  }

  /** TakeNextEnvelopeHolder: the oldest available file, after finalizing the active one if there is none. */
  ghost function TakeStep(st: Store, name: FileName, setup: Setup): (Store, Option<FileName>, bool) {
    match Oldest(st)
    case Some(f) => (st.(taken := st.taken + {f}), Some(f), false)
    case None =>
      if !st.open || FileSize(st.active, setup) == 0 then (st, None, false)
      else
        var (finalized, ok) := Finalize(st, name, setup);
        match Oldest(finalized)
        case Some(f) => (finalized.(taken := finalized.taken + {f}), Some(f), ok)
        case None => (finalized, None, ok)
  }

  function RemoveAt(holders: seq<set<FileName>>, i: nat): seq<set<FileName>>
    requires i < |holders|
  {
    holders[i := {}]
  }

  function CloseLog(sys: System, name: FileName): System {
    sys.(used := sys.used + {name}, log := [], closed := sys.closed + [Closed(name, sys.log)])
  }

  function Accept(sys: System, item: Item): System {
    sys.(accepted := sys.accepted + [item], log := sys.log + [item])
  }

  ghost function Apply(sys: System, op: Op, setup: Setup): System {
    match op
    case StoreObservation(metadata, o, name) =>
      var (st, status) := StoreStep(sys.store, metadata, o, name, setup);
      var sys1 := if status == StoredOk && o.message.Some? then Accept(sys, Item(metadata, o.message.value)) else sys;
      var sys2 := if name in st.disk && name !in sys.store.disk then CloseLog(sys1, name) else sys1;
      sys2.(store := st)
    case TakeHolder(name) =>
      var (st, file, finalized) := TakeStep(sys.store, name, setup);
      var sys1 := if finalized then CloseLog(sys, name) else sys;
      sys1.(store := st, holders := if file.Some? then sys.holders + [{file.value}] else sys.holders)
    case Return(i) =>
      if |sys.holders| <= i then sys
      else sys.(store := ReturnHolder(sys.store, sys.holders[i]), holders := RemoveAt(sys.holders, i))
    case Merge(i, j) =>
      if |sys.holders| <= i || |sys.holders| <= j || i == j then sys
      else sys.(holders := RemoveAt(sys.holders[i := sys.holders[i] + sys.holders[j]], j))
    case Destroy(i) =>
      if |sys.holders| <= i then sys
      else sys.(store := DestroyFiles(sys.store, sys.holders[i], setup), holders := RemoveAt(sys.holders, i))
    case DeleteData(name) =>
      var (st, finalized) := Finalize(sys.store, name, setup);
      var sys1 := if finalized then CloseLog(sys, name) else sys.(log := []);
      sys1.(store := NEW_STORE)
  }

  ghost function Run(ops: seq<Op>, setup: Setup): System {
    if ops == [] then NEW_SYSTEM else Apply(Run(ops[..|ops| - 1], setup), ops[|ops| - 1], setup)
  }

  /** The file-name generator returned a name it had not returned before. */
  predicate FreshName(op: Op, used: set<FileName>) {
    match op
    case StoreObservation(_, _, name) => name !in used
    case TakeHolder(name) => name !in used
    case DeleteData(name) => name !in used
    case _ => true
  }

  ghost predicate FreshRun(ops: seq<Op>, setup: Setup) {
    ops == []
    || (FreshRun(ops[..|ops| - 1], setup) && FreshName(ops[|ops| - 1], Run(ops[..|ops| - 1], setup).used))
  }

  /** Every record takes space. */
  ghost predicate Positive(setup: Setup) { forall r: Record :: 0 < setup.recordSize(r) }

  // ---------------------------------------------------------------- Ownership

  predicate Held(holders: seq<set<FileName>>, f: FileName) {
    exists i :: 0 <= i < |holders| && f in holders[i]
  }

  /** A finalized file is available or belongs to exactly one live holder, and only taken files belong to one. */
  ghost predicate Owned(st: Store, holders: seq<set<FileName>>, used: set<FileName>) {
    && (forall f :: f in st.disk ==> f in used && (f in st.taken <==> Held(holders, f)))
    && (forall i, j :: 0 <= i < j < |holders| ==> holders[i] !! holders[j])
    && (forall i :: 0 <= i < |holders| ==> holders[i] <= used)
    && st.taken <= used
  }

  lemma FinalizeOwned(st: Store, holders: seq<set<FileName>>, used: set<FileName>, name: FileName, setup: Setup)
    requires Owned(st, holders, used) && name !in used
    ensures Owned(Finalize(st, name, setup).0, holders, used + {name})
  {
  }

  lemma TakenOwned(st: Store, holders: seq<set<FileName>>, used: set<FileName>, f: FileName)
    requires Owned(st, holders, used) && IsAvailable(st, f)
    ensures Owned(st.(taken := st.taken + {f}), holders + [{f}], used)
  {
    var holders' := holders + [{f}];
    assert !Held(holders, f);
    forall g | g in st.disk ensures Held(holders', g) <==> g == f || Held(holders, g) {
      if g == f {
        assert g in holders'[|holders|];
      } else if Held(holders, g) {
        var i :| 0 <= i < |holders| && g in holders[i];
        assert g in holders'[i];
      }
    }
  }

  lemma ReturnedOwned(st: Store, holders: seq<set<FileName>>, used: set<FileName>, i: nat)
    requires Owned(st, holders, used) && i < |holders|
    ensures Owned(ReturnHolder(st, holders[i]), RemoveAt(holders, i), used)
  {
    HeldWithout(holders, i);
  }

  /** Emptying a holder releases its files and no others. */
  lemma HeldWithout(holders: seq<set<FileName>>, i: nat)
    requires i < |holders| && forall j, k :: 0 <= j < k < |holders| ==> holders[j] !! holders[k]
    ensures forall f: FileName :: Held(RemoveAt(holders, i), f) <==> Held(holders, f) && f !in holders[i]
  {
    forall f: FileName
      ensures Held(RemoveAt(holders, i), f) <==> Held(holders, f) && f !in holders[i]
    {
      if Held(RemoveAt(holders, i), f) {
        var j :| 0 <= j < |holders| && f in RemoveAt(holders, i)[j];
        assert f in holders[j] && j != i;
      }
      if Held(holders, f) && f !in holders[i] {
        var j :| 0 <= j < |holders| && f in holders[j];
        assert f in RemoveAt(holders, i)[j];
      }
    }
  }

  lemma MergedOwned(st: Store, holders: seq<set<FileName>>, used: set<FileName>, i: nat, j: nat)
    requires Owned(st, holders, used) && i < |holders| && j < |holders| && i != j
    ensures Owned(st, RemoveAt(holders[i := holders[i] + holders[j]], j), used)
  {
    var merged := RemoveAt(holders[i := holders[i] + holders[j]], j);
    forall f: FileName ensures Held(merged, f) <==> Held(holders, f) {
      if Held(holders, f) {
        var k :| 0 <= k < |holders| && f in holders[k];
        assert f in merged[if k == j then i else k];
      }
      if Held(merged, f) {
        var k :| 0 <= k < |merged| && f in merged[k];
        assert f in holders[k] || f in holders[j];
      }
    }
  }

  lemma DestroyedOwned(st: Store, holders: seq<set<FileName>>, used: set<FileName>, i: nat, setup: Setup)
    requires Owned(st, holders, used) && i < |holders| && BytesTracked(st, setup)
    ensures Owned(DestroyFiles(st, holders[i], setup), RemoveAt(holders, i), used)
  {
    DestroyEffect(st, holders[i], setup);
    HeldWithout(holders, i);
  }

  // ---------------------------------------------------------------- History

  function Concat(closed: seq<Closed>): seq<Item> {
    if closed == [] then [] else Concat(closed[..|closed| - 1]) + closed[|closed| - 1].items
  }

  predicate HasEntry(closed: seq<Closed>, f: FileName) {
    exists i :: 0 <= i < |closed| && closed[i].name == f
  }

  /** Every file on disk decodes to the observations that were stored in it. */
  ghost predicate Faithful(disk: map<FileName, seq<Record>>, closed: seq<Closed>, used: set<FileName>) {
    && (forall f :: f in disk ==> HasEntry(closed, f))
    && (forall i :: 0 <= i < |closed| ==>
          closed[i].name in used && (closed[i].name in disk ==> Decode(disk[closed[i].name]) == Some(closed[i].items)))
  }

  lemma CloseKeepsFaithful(disk: map<FileName, seq<Record>>, closed: seq<Closed>, used: set<FileName>, name: FileName,
                           file: seq<Record>, items: seq<Item>)
    requires Faithful(disk, closed, used) && name !in used && Decode(file) == Some(items)
    ensures Faithful(disk[name := file], closed + [Closed(name, items)], used + {name})
  {
    var closed' := closed + [Closed(name, items)];
    forall f: FileName | f in disk || f == name ensures HasEntry(closed', f) {
      if f == name {
        assert closed'[|closed|].name == f;
      } else {
        assert HasEntry(closed, f);
        var i :| 0 <= i < |closed| && closed[i].name == f;
        assert closed'[i].name == f;
      }
    }
  }

  lemma ConcatAppend(closed: seq<Closed>, c: Closed)
    ensures Concat(closed + [c]) == Concat(closed) + c.items
  {
    assert (closed + [c])[..|closed|] == closed;
  }

  ghost predicate Invariant(sys: System, setup: Setup) {
    && BytesTracked(sys.store, setup)
    && LogInvariant(sys.store, sys.log)
    && Owned(sys.store, sys.holders, sys.used)
    && Faithful(sys.store.disk, sys.closed, sys.used)
    && Concat(sys.closed) + sys.log == sys.accepted
  }

  lemma {:induction false} SizePositive(file: seq<Record>, setup: Setup)
    requires Positive(setup)
    ensures FileSize(file, setup) == 0 <==> file == []
  {
    if file != [] {
      assert 0 < setup.recordSize(file[|file| - 1]);
    }
  }

  /** Finalizing keeps the invariant, whichever call does it. */
  lemma FinalizeKeeps(sys: System, name: FileName, setup: Setup)
    requires Invariant(sys, setup) && name !in sys.used && Positive(setup)
    ensures var (st, ok) := Finalize(sys.store, name, setup);
            Invariant((if ok then CloseLog(sys, name) else sys).(store := st), setup)
  {
    SizePositive(sys.store.active, setup);
    FinalizeTracks(sys.store, name, setup);
    FinalizeOwned(sys.store, sys.holders, sys.used, name, setup);
    var (st, ok) := Finalize(sys.store, name, setup);
    if ok {
      CloseKeepsFaithful(sys.store.disk, sys.closed, sys.used, name, sys.store.active, sys.log);
      ConcatAppend(sys.closed, Closed(name, sys.log));
      assert Concat(CloseLog(sys, name).closed) + [] == sys.accepted;
    } else {
      assert Owned(st, sys.holders, sys.used);
    }
  }

  /** Opening the active file and writing metadata to it changes nothing that was promised. */
  lemma LabelKeeps(sys: System, item: Item, setup: Setup)
    requires Invariant(sys, setup)
    ensures Invariant(sys.(store := sys.store.(open := true)), setup)
    ensures Invariant(sys.(store := AppendMetadata(sys.store.(open := true), item.metadata)), setup)
  {
    StoreExtendsLog(sys.store, item, sys.log);
  }

  /** The store after an item was appended to the active file. */
  function Appended(st: Store, item: Item): Store {
    var labelled := AppendMetadata(st.(open := true), item.metadata);
    labelled.(active := labelled.active + [Stored(item.message)])
  }

  lemma AddKeeps(sys: System, item: Item, setup: Setup)
    requires Invariant(sys, setup)
    ensures Invariant(Accept(sys, item).(store := Appended(sys.store, item)), setup)
  {
    StoreExtendsLog(sys.store, item, sys.log);
    assert Concat(sys.closed) + (sys.log + [item]) == sys.accepted + [item];
  }

  /** The ways in which a call of StoreObservation can end. */
  lemma StoreCases(sys: System, metadata: string, o: Observation, name: FileName, setup: Setup)
    requires name !in sys.store.disk && Positive(setup)
    ensures var sys' := Apply(sys, StoreObservation(metadata, o, name), setup);
            || sys' == sys.(store := sys.store.(open := true))
            || sys' == sys.(store := AppendMetadata(sys.store.(open := true), metadata))
            || (o.message.Some? &&
                var item := Item(metadata, o.message.value);
                var sys1 := Accept(sys, item).(store := Appended(sys.store, item));
                || sys' == sys1
                || (Finalize(sys1.store, name, setup).1 && sys' == CloseLog(sys1, name).(store := Finalize(sys1.store, name, setup).0)))
  {
    if o.message.Some? {
      SizePositive(Appended(sys.store, Item(metadata, o.message.value)).active, setup);
    }
  }

  lemma StoreKeeps(sys: System, metadata: string, o: Observation, name: FileName, setup: Setup)
    requires Invariant(sys, setup) && name !in sys.used && Positive(setup)
    ensures Invariant(Apply(sys, StoreObservation(metadata, o, name), setup), setup)
  {
    LabelKeeps(sys, Item(metadata, Encrypted(0)), setup);
    StoreCases(sys, metadata, o, name, setup);
    if o.message.Some? {
      var item := Item(metadata, o.message.value);
      AddKeeps(sys, item, setup);
      FinalizeKeeps(Accept(sys, item).(store := Appended(sys.store, item)), name, setup);
    }
  }

  lemma TakeKeeps(sys: System, name: FileName, setup: Setup)
    requires Invariant(sys, setup) && name !in sys.used && Positive(setup)
    ensures Invariant(Apply(sys, TakeHolder(name), setup), setup)
  {
    FinalizeKeeps(sys, name, setup);
    var oldest := Oldest(sys.store);
    if oldest.Some? {
      TakenOwned(sys.store, sys.holders, sys.used, oldest.value);
    } else {
      var (st, ok) := Finalize(sys.store, name, setup);
      var next := Oldest(st);
      if next.Some? && ok {
        TakenOwned(st, sys.holders, sys.used + {name}, next.value);
      }
    }
  }

  lemma StepKeeps(sys: System, op: Op, setup: Setup)
    requires Invariant(sys, setup) && FreshName(op, sys.used) && Positive(setup)
    ensures Invariant(Apply(sys, op, setup), setup)
  {
    match op {
      case StoreObservation(metadata, o, name) => StoreKeeps(sys, metadata, o, name, setup);
      case TakeHolder(name) => TakeKeeps(sys, name, setup);
      case Return(i) =>
        if i < |sys.holders| {
          ReturnedOwned(sys.store, sys.holders, sys.used, i);
        }
      case Merge(i, j) =>
        if i < |sys.holders| && j < |sys.holders| && i != j {
          MergedOwned(sys.store, sys.holders, sys.used, i, j);
        }
      case Destroy(i) =>
        if i < |sys.holders| {
          DestroyedOwned(sys.store, sys.holders, sys.used, i, setup);
          DestroyEffect(sys.store, sys.holders[i], setup);
        }
      case DeleteData(name) => DeleteKeeps(sys, name, setup);
    }
  }

  lemma DeleteKeeps(sys: System, name: FileName, setup: Setup)
    requires Invariant(sys, setup) && name !in sys.used && Positive(setup)
    ensures Invariant(Apply(sys, DeleteData(name), setup), setup)
  {
    FinalizeKeeps(sys, name, setup);
    SizePositive(sys.store.active, setup);
    assert Sizes(map[], setup) == map[];
  }

  /** In every state of every run with fresh file names: each finalized file is available or in exactly one live holder;
      the tracked bytes are the size of the finalized files; every file decodes to the observations stored in it; and
      those, file after file in the order of finalization, and then the active file, are the accepted observations. */
  lemma {:induction false} RunInvariant(ops: seq<Op>, setup: Setup)
    requires FreshRun(ops, setup) && Positive(setup)
    ensures Invariant(Run(ops, setup), setup)
  {
    if ops == [] {
      assert Sizes(map[], setup) == map[];
    } else {
      RunInvariant(ops[..|ops| - 1], setup);
      StepKeeps(Run(ops[..|ops| - 1], setup), ops[|ops| - 1], setup);
    }
  }

  // ---------------------------------------------------------------- Accepting and refusing

  /** The bytes in the directory: those of the finalized files and those of the active one. */
  ghost function BytesOnDisk(st: Store, setup: Setup): nat { Sum(Sizes(st.disk, setup)) + FileSize(st.active, setup) }

  /** The records that an observation adds to a file: its message, after its metadata if that is not the latest in the file. */
  function NewRecords(file: seq<Record>, metadata: string, message: Message): seq<Record> {
    if Current(file) == Some(metadata) then [Stored(message)] else [Metadata(metadata), Stored(message)]
  }

  /** In every state of every run, which observations are accepted: those with a message that are not too big themselves and
      for which the directory has room. Each refusal has its own reason, the size of the observation coming first. */
  lemma AcceptedExactly(ops: seq<Op>, setup: Setup, metadata: string, o: Observation, name: FileName)
    requires FreshRun(ops, setup) && Positive(setup)
    ensures var st := Run(ops, setup).store;
            var status, room := StoreStep(st, metadata, o, name, setup).1, BytesOnDisk(st, setup) + o.size <= setup.maxTotal;
            && (status == ObservationTooBig <==> setup.maxObservation < o.size)
            && (status == StoreFull <==> o.size <= setup.maxObservation && !room)
            && (status == WriteFailed <==> o.size <= setup.maxObservation && room && o.message.None?)
            && (status == StoredOk <==> o.size <= setup.maxObservation && room && o.message.Some?)
  {
    RunInvariant(ops, setup);
    if o.message.Some? {
      SizePositive(Appended(Run(ops, setup).store, Item(metadata, o.message.value)).active, setup);
    }
  }

  lemma AppendedRecords(st: Store, item: Item, log: seq<Item>)
    requires LogInvariant(st, log)
    ensures Appended(st, item).active == st.active + NewRecords(st.active, item.metadata, item.message)
  {
    assert st.active + [Metadata(item.metadata)] + [Stored(item.message)] == st.active + [Metadata(item.metadata), Stored(item.message)];
  }

  /** A refused observation changes no finalized file and adds no observation to the active one. */
  lemma RefusedEffect(st: Store, log: seq<Item>, metadata: string, o: Observation, name: FileName, setup: Setup)
    requires LogInvariant(st, log) && Positive(setup) && StoreStep(st, metadata, o, name, setup).1 != StoredOk
    ensures var st' := StoreStep(st, metadata, o, name, setup).0; st'.disk == st.disk && LogInvariant(st', log)
  {
    StoreExtendsLog(st, Item(metadata, Encrypted(0)), log);
    if o.message.Some? {
      SizePositive(Appended(st, Item(metadata, o.message.value)).active, setup);
    }
  }

  lemma AcceptedEffect(st: Store, log: seq<Item>, metadata: string, o: Observation, name: FileName, setup: Setup)
    requires LogInvariant(st, log) && Positive(setup) && StoreStep(st, metadata, o, name, setup).1 == StoredOk
    ensures var st' := StoreStep(st, metadata, o, name, setup).0;
            && o.message.Some?
            && var file := st.active + NewRecords(st.active, metadata, o.message.value);
               if FileSize(file, setup) < setup.maxEnvelope then st'.active == file && st'.open && st'.disk == st.disk
               else st'.active == [] && !st'.open && st'.disk == st.disk[name := file]
  {
    var item := Item(metadata, o.message.value);
    AppendedRecords(st, item, log);
    SizePositive(Appended(st, item).active, setup);
    assert StoreStep(st, metadata, o, name, setup).0 ==
           if FileSize(Appended(st, item).active, setup) < setup.maxEnvelope then Appended(st, item)
           else Finalize(Appended(st, item), name, setup).0;
  }

  /** What an accepted observation does to the directory, in every state of every run: its records go to the end of the
      active file, and the call finalizes that file exactly when it has then reached the size of an envelope. */
  lemma StoredWhere(ops: seq<Op>, setup: Setup, metadata: string, o: Observation, name: FileName)
    requires FreshRun(ops, setup) && Positive(setup)
    ensures var st := Run(ops, setup).store;
            var (st', status) := StoreStep(st, metadata, o, name, setup);
            && (status != StoredOk ==> st'.disk == st.disk && Decode(st'.active) == Decode(st.active))
            && (status == StoredOk ==>
                o.message.Some? &&
                var file := st.active + NewRecords(st.active, metadata, o.message.value);
                if FileSize(file, setup) < setup.maxEnvelope then st'.active == file && st'.open && st'.disk == st.disk
                else st'.active == [] && !st'.open && st'.disk == st.disk[name := file])
  {
    RunInvariant(ops, setup);
    var sys := Run(ops, setup);
    if StoreStep(sys.store, metadata, o, name, setup).1 == StoredOk {
      AcceptedEffect(sys.store, sys.log, metadata, o, name, setup);
    } else {
      RefusedEffect(sys.store, sys.log, metadata, o, name, setup);
    }
  }

  // ---------------------------------------------------------------- Reading back

  datatype Batch = Batch(metadata: string, messages: seq<nat>)

  /** What a message is sent as: encrypted on reading if it was not before. */
  function Sealed(m: Message, encrypt: nat -> nat): nat { if m.Encrypted? then m.payload else encrypt(m.payload) }

  /** The messages stored with a metadata value, in order. */
  function Under(items: seq<Item>, metadata: string, encrypt: nat -> nat): seq<nat> {
    if items == [] then []
    else
      var last := items[|items| - 1];
      var sent := match last.message case Encrypted(payload) => payload case Unencrypted(payload) => encrypt(payload);
      Under(items[..|items| - 1], metadata, encrypt) + (if last.metadata == metadata then [sent] else [])
  }

  lemma UnderAppend(items: seq<Item>, item: Item, metadata: string, encrypt: nat -> nat)
    ensures Under(items + [item], metadata, encrypt) ==
            Under(items, metadata, encrypt) + (if item.metadata == metadata then [Sealed(item.message, encrypt)] else [])
  {
    assert (items + [item])[..|items|] == items;
  }

  /** The index finds every batch by its metadata. */
  ghost predicate Indexed(envelope: seq<Batch>, index: map<string, nat>) {
    && (forall m :: m in index ==> index[m] < |envelope| && envelope[index[m]].metadata == m)
    && (forall i :: 0 <= i < |envelope| ==> envelope[i].metadata in index && index[envelope[i].metadata] == i)
  }

  function Got(envelope: seq<Batch>, index: map<string, nat>, m: string): seq<nat> {
    if m in index && index[m] < |envelope| then envelope[index[m]].messages else []
  }

  lemma {:induction false} PrefixDecodes(file: seq<Record>, k: nat)
    requires Decode(file).Some? && k <= |file|
    ensures Decode(file[..k]).Some?
    ensures k < |file| && file[k].Stored? ==> Current(file[..k]).Some?
  {
    if k < |file| {
      var front := file[..|file| - 1];
      if k < |front| {
        PrefixDecodes(front, k);
        assert front[..k] == file[..k];
      } else {
        assert file[..k] == front;
      }
    } else {
      assert file[..k] == file;
    }
  }

  /** The messages that one record adds to the batch of a metadata value: at most one. */
  function Contribution(file: seq<Record>, k: nat, m: string, encrypt: nat -> nat): seq<nat>
    requires k < |file|
  {
    if file[k].Stored? && Current(file[..k]) == Some(m) then [Sealed(file[k].message, encrypt)] else []
  }

  lemma ContributionStep(file: seq<Record>, k: nat, m: string, encrypt: nat -> nat)
    requires k < |file| && Decode(file).Some?
    ensures Decode(file[..k]).Some? && Decode(file[..k + 1]).Some?
    ensures Under(Decode(file[..k + 1]).value, m, encrypt) ==
            Under(Decode(file[..k]).value, m, encrypt) + Contribution(file, k, m, encrypt)
  {
    PrefixDecodes(file, k);
    PrefixDecodes(file, k + 1);
    assert file[..k + 1] == file[..k] + [file[k]];
    DecodeAppend(file[..k], file[k]);
    if file[k].Stored? {
      UnderAppend(Decode(file[..k]).value, Item(Current(file[..k]).value, file[k].message), m, encrypt);
    }
  }

  /** One record of the read loop of GetEnvelope. */
  method ReadRecord(file: seq<Record>, k: nat, encrypt: nat -> nat, envelope: seq<Batch>, index: map<string, nat>, current: nat)
    returns (envelope': seq<Batch>, index': map<string, nat>, current': nat)
    requires k < |file| && Decode(file).Some? && Indexed(envelope, index)
    requires Current(file[..k]).Some? ==> Current(file[..k]).value in index && index[Current(file[..k]).value] == current
    ensures Decode(file[..k]).Some? && Decode(file[..k + 1]).Some? && Indexed(envelope', index')
    ensures Current(file[..k + 1]).Some? ==> Current(file[..k + 1]).value in index' && index'[Current(file[..k + 1]).value] == current'
    ensures forall m: string :: Got(envelope', index', m) == Got(envelope, index, m) + Contribution(file, k, m, encrypt)
  {
    PrefixDecodes(file, k);
    PrefixDecodes(file, k + 1);
    assert file[..k + 1] == file[..k] + [file[k]];
    DecodeAppend(file[..k], file[k]);
    envelope', index', current' := envelope, index, current;
    match file[k] {
      case Metadata(m) =>
        if m in index {
          current' := index[m];
        } else {
          current' := |envelope|;
          envelope' := envelope + [Batch(m, [])];
          index' := index[m := |envelope|];
        }
      case Stored(o) =>
        var batch := envelope[current];
        envelope' := envelope[current := batch.(messages := batch.messages + [Sealed(o, encrypt)])];
    }
  }

  lemma Reassociate(after: seq<nat>, before: seq<nat>, start: seq<nat>, read: seq<nat>, more: seq<nat>)
    requires after == before + more && before == start + read
    ensures after == start + (read + more)
  {
  }

  /** GetEnvelope on one file: every batch gains exactly the messages that the file holds under its metadata. */
  method ReadFile(file: seq<Record>, encrypt: nat -> nat, envelope: seq<Batch>, index: map<string, nat>)
    returns (envelope': seq<Batch>, index': map<string, nat>)
    requires Decode(file).Some? && Indexed(envelope, index)
    ensures Indexed(envelope', index')
    ensures forall m: string ::
              Got(envelope', index', m) == Got(envelope, index, m) + Under(Decode(file).value, m, encrypt)
  {
    envelope', index' := envelope, index;
    var current := 0;
    for k := 0 to |file|
      invariant Indexed(envelope', index') && Decode(file[..k]).Some?
      invariant Current(file[..k]).Some? ==> Current(file[..k]).value in index' && index'[Current(file[..k]).value] == current
      invariant forall m: string ::
                  Got(envelope', index', m) == Got(envelope, index, m) + Under(Decode(file[..k]).value, m, encrypt)
    {
      ghost var e, x := envelope', index';
      envelope', index', current := ReadRecord(file, k, encrypt, envelope', index', current);
      forall m: string
        ensures Got(envelope', index', m) == Got(envelope, index, m) + Under(Decode(file[..k + 1]).value, m, encrypt)
      {
        ContributionStep(file, k, m, encrypt);
        Reassociate(Got(envelope', index', m), Got(e, x, m), Got(envelope, index, m),
                    Under(Decode(file[..k]).value, m, encrypt), Contribution(file, k, m, encrypt));
      }
    }
    assert file[..|file|] == file;
  }

  /** The observations of several files, one file after the other. */
  function AllItems(files: seq<seq<Record>>): seq<Item>
    requires forall i :: 0 <= i < |files| ==> Decode(files[i]).Some?
  {
    if files == [] then [] else AllItems(files[..|files| - 1]) + Decode(files[|files| - 1]).value
  }

  lemma {:induction false} UnderConcat(a: seq<Item>, b: seq<Item>, m: string, encrypt: nat -> nat)
    ensures Under(a + b, m, encrypt) == Under(a, m, encrypt) + Under(b, m, encrypt)
  {
    if b == [] {
      assert a + b == a;
    } else {
      var front := b[..|b| - 1];
      UnderConcat(a, front, m, encrypt);
      assert (a + b)[..|a + b| - 1] == a + front;
    }
  }

  /** An envelope with one batch per metadata value, which holds exactly the messages stored with it, in order. */
  ghost predicate Groups(envelope: seq<Batch>, items: seq<Item>, encrypt: nat -> nat) {
    && (forall i, j :: 0 <= i < j < |envelope| ==> envelope[i].metadata != envelope[j].metadata)
    && (forall i :: 0 <= i < |envelope| ==> envelope[i].messages == Under(items, envelope[i].metadata, encrypt))
    && (forall m: string :: Under(items, m, encrypt) != [] ==> exists i :: 0 <= i < |envelope| && envelope[i].metadata == m)
  }

  /** FileEnvelopeHolder::GetEnvelope, for files that the store wrote. */
  method GetEnvelope(files: seq<seq<Record>>, encrypt: nat -> nat) returns (envelope: seq<Batch>)
    requires forall i :: 0 <= i < |files| ==> Decode(files[i]).Some?
    ensures Groups(envelope, AllItems(files), encrypt)
  {
    envelope := [];
    var index: map<string, nat> := map[];
    for k := 0 to |files|
      invariant Indexed(envelope, index)
      invariant forall m: string :: Got(envelope, index, m) == Under(AllItems(files[..k]), m, encrypt)
    {
      envelope, index := ReadFile(files[k], encrypt, envelope, index);
      assert files[..k + 1][..k] == files[..k];
      forall m: string
        ensures Under(AllItems(files[..k + 1]), m, encrypt) ==
                Under(AllItems(files[..k]), m, encrypt) + Under(Decode(files[k]).value, m, encrypt)
      {
        UnderConcat(AllItems(files[..k]), Decode(files[k]).value, m, encrypt);
      }
    }
    assert files[..|files|] == files;
    forall i | 0 <= i < |envelope| ensures envelope[i].messages == Under(AllItems(files), envelope[i].metadata, encrypt) {
      assert Got(envelope, index, envelope[i].metadata) == envelope[i].messages;
    }
    forall m: string | Under(AllItems(files), m, encrypt) != [] ensures exists i :: 0 <= i < |envelope| && envelope[i].metadata == m {
      assert Got(envelope, index, m) != [];
    }
  }

  /** The items that the history records for a file. */
  function StoredIn(closed: seq<Closed>, f: FileName): seq<Item> {
    if closed == [] then []
    else if closed[|closed| - 1].name == f then closed[|closed| - 1].items
    else StoredIn(closed[..|closed| - 1], f)
  }

  lemma {:induction false} StoredInEntry(closed: seq<Closed>, f: FileName)
    requires HasEntry(closed, f)
    ensures exists i :: 0 <= i < |closed| && closed[i].name == f && StoredIn(closed, f) == closed[i].items
  {
    if closed[|closed| - 1].name != f {
      var front := closed[..|closed| - 1];
      var i :| 0 <= i < |closed| && closed[i].name == f;
      assert front[i].name == f;
      StoredInEntry(front, f);
      var j :| 0 <= j < |front| && front[j].name == f && StoredIn(front, f) == front[j].items;
      assert closed[j].items == front[j].items;
    }
  }

  /** The files of a holder in some state of a run. */
  ghost predicate FilesOf(sys: System, names: seq<FileName>, files: seq<seq<Record>>) {
    |names| == |files| && forall i :: 0 <= i < |names| ==> names[i] in sys.store.disk && files[i] == sys.store.disk[names[i]]
  }

  /** The observations stored in several files, one file after the other. */
  function AllStored(closed: seq<Closed>, names: seq<FileName>): seq<Item> {
    if names == [] then [] else AllStored(closed, names[..|names| - 1]) + StoredIn(closed, names[|names| - 1])
  }

  lemma {:induction false} AllRead(closed: seq<Closed>, names: seq<FileName>, files: seq<seq<Record>>)
    requires |names| == |files| && forall i :: 0 <= i < |files| ==> Decode(files[i]) == Some(StoredIn(closed, names[i]))
    ensures AllItems(files) == AllStored(closed, names)
  {
    if files != [] {
      AllRead(closed, names[..|names| - 1], files[..|files| - 1]);
    }
  }

  /** Round trip over runs: whichever finalized files a holder has, in any state of any run, each decodes to exactly the
      observations that were stored in it, in order. */
  lemma {:induction false} ReadsBackWhatWasStored(ops: seq<Op>, setup: Setup, names: seq<FileName>, files: seq<seq<Record>>)
    requires FreshRun(ops, setup) && Positive(setup) && FilesOf(Run(ops, setup), names, files)
    ensures forall i :: 0 <= i < |files| ==> Decode(files[i]) == Some(StoredIn(Run(ops, setup).closed, names[i]))
    ensures AllItems(files) == AllStored(Run(ops, setup).closed, names)
  {
    RunInvariant(ops, setup);
    var closed := Run(ops, setup).closed;
    forall i | 0 <= i < |files| ensures Decode(files[i]) == Some(StoredIn(closed, names[i])) {
      assert HasEntry(closed, names[i]);
      StoredInEntry(closed, names[i]);
    }
    AllRead(closed, names, files);
  }

  /** The envelope that a holder gives out in any state of any run: for each metadata value one batch, with exactly the
      messages that were stored with it in the files of the holder, in the order in which they were stored. */
  method EnvelopeOfHolder(ghost ops: seq<Op>, ghost setup: Setup, ghost names: seq<FileName>, files: seq<seq<Record>>, encrypt: nat -> nat)
    returns (envelope: seq<Batch>)
    requires FreshRun(ops, setup) && Positive(setup) && FilesOf(Run(ops, setup), names, files)
    ensures Groups(envelope, AllStored(Run(ops, setup).closed, names), encrypt)
  {
    ReadsBackWhatWasStored(ops, setup, names, files);
    envelope := GetEnvelope(files, encrypt);
  }

  // ---------------------------------------------------------------- The class

  class FileStore {
    var open: bool
    var active: seq<Record>
    var metadataWritten: bool
    var lastMetadata: string
    var taken: set<FileName>
    var finalizedBytes: int
    var disk: map<FileName, seq<Record>>
    var disabled: bool
    const setup: Setup

    ghost function Value(): Store
      reads this
    {
      Store(open, active, metadataWritten, lastMetadata, taken, finalizedBytes, disk)
    }

    constructor (setup: Setup)
      ensures Value() == NEW_STORE && !disabled && this.setup == setup
    {
      this.setup := setup;
      open, active, metadataWritten, lastMetadata := false, [], false, "";
      taken, finalizedBytes, disk, disabled := {}, 0, map[], false;
    }

    method FinalizeActiveFile(name: FileName) returns (ok: bool)
      modifies this
      ensures (Value(), ok) == Finalize(old(Value()), name, setup) && disabled == old(disabled)
    {
      var file, existed := active, open;
      open, active, metadataWritten := false, [], false;
      if !existed || FileSize(file, setup) == 0 {
        return false;
      }
      disk := disk[name := file];
      finalizedBytes := finalizedBytes + FileSize(file, setup);
      ok := true;
    }

    method StoreObservation(metadata: string, o: Observation, name: FileName) returns (status: StoreStatus)
      modifies this
      ensures disabled == old(disabled)
      ensures (Value(), status) ==
              if disabled then (old(Value()), StoredOk) else StoreStep(old(Value()), metadata, o, name, setup)
    {
      if disabled {
        return StoredOk;
      }
      open := true;
      if setup.maxObservation < o.size {
        return ObservationTooBig;
      }
      if setup.maxTotal < finalizedBytes + FileSize(active, setup) + o.size {
        return StoreFull;
      }
      if !metadataWritten || metadata != lastMetadata {
        active := active + [Metadata(metadata)];
        metadataWritten := true;
        lastMetadata := metadata;
      }
      if o.message.None? {
        return WriteFailed;
      }
      active := active + [Stored(o.message.value)];
      if setup.maxEnvelope <= FileSize(active, setup) {
        var ok := FinalizeActiveFile(name);
        if !ok {
          return WriteFailed;
        }
      }
      status := StoredOk;
    }

    /** GetOldestFinalizedFile: the smallest name among the files that are not taken. */
    method GetOldestFinalizedFile() returns (found: Option<FileName>)
      ensures found == Oldest(Value())
    {
      found := None;
      var todo := disk.Keys;
      while todo != {}
        invariant todo <= disk.Keys
        invariant found.None? ==> forall f :: f in disk && f !in taken ==> f in todo
        invariant found.Some? ==> IsAvailable(Value(), found.value) &&
                                  forall f :: f in disk && f !in taken && f !in todo ==> found.value <= f
      {
        var f :| f in todo;
        if f !in taken {
          if found.None? || f < found.value {
            found := Some(f);
          }
        }
        todo := todo - {f};
      }
      OldestIsUnique(Value(), if found.Some? then found.value else 0);
      if found.Some? {
        assert IsOldest(Value(), found.value);
      }
    }

    method TakeNextEnvelopeHolder(name: FileName) returns (holder: Option<FileName>, ghost finalized: bool)
      modifies this
      ensures (Value(), holder, finalized) == TakeStep(old(Value()), name, setup) && disabled == old(disabled)
    {
      finalized := false;
      holder := GetOldestFinalizedFile();
      if holder.None? {
        if !open || FileSize(active, setup) == 0 {
          return;
        }
        var ok := FinalizeActiveFile(name);
        finalized := ok;
        if !ok {
          assert false;
        }
        holder := GetOldestFinalizedFile();
        if holder.None? {
          return;
        }
      }
      taken := taken + {holder.value};
    }

    method ReturnEnvelopeHolder(holder: set<FileName>)
      modifies this`taken
      ensures Value() == ReturnHolder(old(Value()), holder)
    {
      var todo := holder;
      while todo != {}
        invariant todo <= holder && taken == old(taken) - (holder - todo)
      {
        var f :| f in todo;
        taken := taken - {f};
        todo := todo - {f};
      }
    }

    /** The destructor of a holder. */
    method DestroyHolder(holder: set<FileName>)
      requires BytesTracked(Value(), setup)
      modifies this`disk, this`finalizedBytes
      ensures disk == old(disk) - holder && BytesTracked(Value(), setup)
      ensures Value() == DestroyFiles(old(Value()), holder, setup)
    {
      var todo := holder;
      while todo != {}
        invariant todo <= holder && BytesTracked(Value(), setup)
        invariant disk == old(disk) - (holder - todo)
      {
        var f :| f in todo;
        DeleteTracks(Value(), f, setup);
        DeleteEffect(Value(), f, setup);
        if f in disk {
          finalizedBytes := finalizedBytes - FileSize(disk[f], setup);
          disk := disk - {f};
        }
        todo := todo - {f};
      }
      DestroyEffect(old(Value()), holder, setup);
      assert disk == old(disk) - holder;
    }

    method DeleteData(name: FileName)
      modifies this
      ensures Value() == NEW_STORE && disabled == old(disabled)
    {
      var _ := FinalizeActiveFile(name);
      metadataWritten, lastMetadata, open, active := false, "", false, [];
      taken, finalizedBytes := {}, 0;
      var todo := disk.Keys;
      while todo != {}
        invariant todo == disk.Keys && disabled == old(disabled)
        invariant Value() == NEW_STORE.(disk := disk)
        decreases todo
      {
        var f :| f in todo;
        disk := disk - {f};
        todo := todo - {f};
      }
    }
  }
}
