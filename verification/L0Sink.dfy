/**
 The L0 storage sink: records are numbered, buffered by partition, and flushed
 into numbered objects; reports keep the newest entries only.
 */
module L0Sink {
  import opened Partitioning
  import opened ObjectKeys

  const MAX_REPORTED_OBJECTS := 1_000
  const MAX_REPORTED_FAILURES := 200

  datatype Record = Record(ordinal: nat, draft: Draft)

  /** How a flush ended: the object was uploaded, its upload failed, or it was never written locally. */
  datatype Fate = Uploaded | UploadFailed | NotWritten

  /** How flushing everything ended: a write error stops it, a live-publisher error comes last. */
  datatype FlushEnd = AllFlushed | WriteFailed | PublisherFailed

  datatype StoredObject = StoredObject(id: ObjectId, records: seq<Record>, fate: Fate)

  datatype Entry = ObjectEntry(id: ObjectId, recordCount: nat) | ManifestEntry

  /** Where an ordinal is: at a place in a buffer, at a place in a flushed object, or dropped unpublished. */
  datatype Place = Buffered(partition: Partition, index: nat) | Flushed(objectIndex: nat, index: nat) | Unpublished

  datatype StorageReport = StorageReport(
    recordCount: nat,
    uploadedCount: nat, uploadedRetained: nat, uploadedDropped: nat, uploaded: seq<Entry>,
    failedCount: nat, failedRetained: nat, failedDropped: nat, failed: seq<Entry>,
    manifestWritten: bool)

  // ------------------------------------------------------------ capped lists

  /** The newest `max` of a history. */
  function Newest<T>(all: seq<T>, max: nat): seq<T>
  {
    if |all| <= max then all else all[|all| - max..]
  }

  /** Append and, beyond the cap, drop the oldest: the list stays the newest of its whole history. */
  method PushCapped<T>(values: seq<T>, value: T, max: nat, dropped: nat, ghost all: seq<T>)
    returns (values': seq<T>, dropped': nat)
    requires values == Newest(all, max) && |values| + dropped == |all|
    ensures values' == Newest(all + [value], max) && |values'| + dropped' == |all| + 1
    ensures |values'| == (if |all| < max then |all| + 1 else max)
    ensures forall k :: 0 <= k < |values'| ==> values'[k] == (all + [value])[k + dropped']
  {
    values', dropped' := values + [value], dropped;
    if |values'| > max {
      values', dropped' := values'[1..], dropped + 1;
    }
  }

  // -------------------------------------------------------------------- sink

  class L0StorageSink {
    const flushRecords: nat
    const shardCount: nat
    const hash: string -> nat

    var buffers: map<Partition, seq<Record>>
    var partNumbers: map<Partition, nat>
    var uploaded: seq<Entry>
    var uploadedCount: nat
    var uploadedDropped: nat
    var failed: seq<Entry>
    var failedCount: nat
    var failedDropped: nat
    var nextOrdinal: nat
    var manifestWritten: bool

    // Every draft taken (ordinal o took issued[o - 1]), every flush of the run, every report entry ever made,
    // and the place of every ordinal.
    ghost var issued: seq<Draft>
    ghost var objects: seq<StoredObject>
    ghost var allUploaded: seq<Entry>
    ghost var allFailed: seq<Entry>
    ghost var places: map<nat, Place>

    ghost predicate ReportsOk()
      reads this`uploaded, this`uploadedCount, this`uploadedDropped, this`allUploaded,
            this`failed, this`failedCount, this`failedDropped, this`allFailed
    {
      && uploaded == Newest(allUploaded, MAX_REPORTED_OBJECTS)
      && uploadedCount == |allUploaded| && |uploaded| + uploadedDropped == uploadedCount
      && failed == Newest(allFailed, MAX_REPORTED_FAILURES)
      && failedCount == |allFailed| && |failed| + failedDropped == failedCount
    }

    /** Everything but the bound on buffer lengths, which is restored at the end of each append. */
    ghost predicate Consistent()
      reads this
    {
      && shardCount > 0 && nextOrdinal == |issued| + 1 && ReportsOk()
      && BuffersOk(buffers, hash, shardCount) && ObjectsOk(objects, hash, shardCount)
      && PartsOk(partNumbers, objects) && Conserved(issued, places, buffers, objects)
      && ReportsMatch(allUploaded, allFailed, objects)
    }

    ghost predicate Valid()
      reads this
    {
      Consistent() && flushRecords > 0 && forall p :: p in buffers ==> |buffers[p]| < flushRecords
    }

    constructor (flushRecords: nat, shardCount: nat, hash: string -> nat)
      requires flushRecords > 0 && shardCount > 0
      ensures Valid() && nextOrdinal == 1 && buffers == map[] && objects == []
    {
      this.flushRecords, this.shardCount, this.hash := flushRecords, shardCount, hash;
      buffers, partNumbers := map[], map[];
      uploaded, uploadedCount, uploadedDropped := [], 0, 0;
      failed, failedCount, failedDropped := [], 0, 0;
      nextOrdinal, manifestWritten := 1, false;
      issued, objects, allUploaded, allFailed, places := [], [], [], [], map[];
    }

    method RecordUploaded(entry: Entry)
      requires ReportsOk()
      modifies this`uploaded, this`uploadedCount, this`uploadedDropped, this`allUploaded
      ensures ReportsOk() && allUploaded == old(allUploaded) + [entry]
    {
      uploadedCount := uploadedCount + 1;
      uploaded, uploadedDropped := PushCapped(uploaded, entry, MAX_REPORTED_OBJECTS, uploadedDropped, allUploaded);
      allUploaded := allUploaded + [entry];
    }

    method RecordFailed(entry: Entry)
      requires ReportsOk()
      modifies this`failed, this`failedCount, this`failedDropped, this`allFailed
      ensures ReportsOk() && allFailed == old(allFailed) + [entry]
    {
      failedCount := failedCount + 1;
      failed, failedDropped := PushCapped(failed, entry, MAX_REPORTED_FAILURES, failedDropped, allFailed);
      allFailed := allFailed + [entry];
    }

    method NextPartNumber(p: Partition) returns (part: nat)
      modifies this`partNumbers
      ensures part == PartCount(old(partNumbers), p) + 1 && partNumbers == old(partNumbers)[p := part]
    {
      part := PartCount(partNumbers, p) + 1;
      partNumbers := partNumbers[p := part];
    }

    /** Records how the upload of an object went; an object never written is not recorded. */
    method RecordFate(entry: Entry, fate: Fate)
      requires ReportsOk()
      modifies this`uploaded, this`uploadedCount, this`uploadedDropped, this`allUploaded,
               this`failed, this`failedCount, this`failedDropped, this`allFailed
      ensures ReportsOk()
      ensures allUploaded == old(allUploaded) + (if fate.Uploaded? then [entry] else [])
      ensures allFailed == old(allFailed) + (if fate.UploadFailed? then [entry] else [])
    {
      if fate.Uploaded? {
        RecordUploaded(entry);
      } else if fate.UploadFailed? {
        RecordFailed(entry);
      }
    }

    /**
     Takes the partition's whole buffer out and makes one object of it. `fate`
     is how writing and uploading go; only a failed local write is an error.
     */
    method FlushPartition(p: Partition, fate: Fate) returns (ok: bool)
      requires Consistent()
      modifies this
      ensures Consistent() && nextOrdinal == old(nextOrdinal) && buffers == old(buffers) - {p}
      ensures issued == old(issued) && SameUnpublished(old(places), places) && places.Keys == old(places).Keys
      ensures p !in old(buffers) ==> ok && objects == old(objects)
      ensures p in old(buffers) ==>
                && (ok <==> fate != NotWritten)
                && objects == old(objects) +
                     [StoredObject(ObjectId(p, PartCount(old(partNumbers), p) + 1), old(buffers)[p], fate)]
                && allUploaded == old(allUploaded) +
                     (if fate.Uploaded? then [ObjectEntry(objects[|old(objects)|].id, |old(buffers)[p]|)] else [])
                && allFailed == old(allFailed) +
                     (if fate.UploadFailed? then [ObjectEntry(objects[|old(objects)|].id, |old(buffers)[p]|)] else [])
    {
      hide Conserved, PartsOk, Newest, Moved, PartitionFor, BuffersOk, ObjectsOk, SameUnpublished, ReportsMatch,
           ReportsOk;
      if p !in buffers {
        SameIsSame(places);
        return true;
      }
      ghost var flushed := StoredObject(ObjectId(p, PartCount(partNumbers, p) + 1), buffers[p], fate);
      FlushMatchesReports(allUploaded, allFailed, objects, flushed);
      var id, records := TakeOut(p, fate);
      RecordFate(ObjectEntry(id, |records|), fate);
      ok := fate != NotWritten;
    }

    /** Removes the buffer and numbers the object it becomes. */
    method TakeOut(p: Partition, ghost fate: Fate) returns (id: ObjectId, records: seq<Record>)
      requires Consistent() && p in buffers
      modifies this`buffers, this`partNumbers, this`places, this`objects
      ensures id == ObjectId(p, PartCount(old(partNumbers), p) + 1) && records == old(buffers)[p]
      ensures buffers == old(buffers) - {p} && objects == old(objects) + [StoredObject(id, records, fate)]
      ensures BuffersOk(buffers, hash, shardCount) && ObjectsOk(objects, hash, shardCount)
      ensures PartsOk(partNumbers, objects) && Conserved(issued, places, buffers, objects)
      ensures SameUnpublished(old(places), places) && places.Keys == old(places).Keys
    {
      hide Conserved, PartsOk, Newest, Moved, PartitionFor, BuffersOk, ObjectsOk, SameUnpublished, ReportsMatch,
           ReportsOk;
      records := buffers[p];
      ghost var flushed := StoredObject(ObjectId(p, PartCount(partNumbers, p) + 1), records, fate);
      FlushConserves(issued, places, buffers, objects, p, flushed);
      FlushNumbersParts(partNumbers, objects, flushed);
      FlushKeepsPartitions(buffers, objects, hash, shardCount, p, flushed);
      buffers := buffers - {p};
      var part := NextPartNumber(p);
      id := ObjectId(p, part);
      places := Moved(places, p, |objects|);
      objects := objects + [flushed];
    }

    /** Puts one record into its buffer; the buffer may now be full. */
    method BufferRecord(draft: Draft, ordinal: nat) returns (p: Partition)
      requires Consistent() && ordinal == nextOrdinal
      modifies this`buffers, this`nextOrdinal, this`places, this`issued
      ensures Consistent() && nextOrdinal == old(nextOrdinal) + 1
      ensures p == PartitionFor(draft, hash, shardCount)
      ensures issued == old(issued) + [draft] && places.Keys == old(places).Keys + {ordinal}
      ensures SameUnpublished(old(places), places) && !places[ordinal].Unpublished?
      ensures buffers == old(buffers)[p :=
                (if p in old(buffers) then old(buffers)[p] else []) + [Record(ordinal, draft)]]
    {
      hide Conserved, PartsOk, Newest, PartitionFor, ObjectsOk, SameUnpublished, ReportsMatch;
      p := PartitionFor(draft, hash, shardCount);
      var buffer := if p in buffers then buffers[p] else [];
      BufferingConserves(issued, places, buffers, objects, p, Record(ordinal, draft));
      buffers := buffers[p := buffer + [Record(ordinal, draft)]];
      nextOrdinal := nextOrdinal + 1;
      places, issued := places[ordinal := Buffered(p, |buffer|)], issued + [draft];
    }

    /** A required live publish failed: the ordinal is spent and its record dropped. */
    method DropUnpublished(draft: Draft, ordinal: nat)
      requires Valid() && ordinal == nextOrdinal
      modifies this`nextOrdinal, this`places, this`issued
      ensures Valid() && nextOrdinal == old(nextOrdinal) + 1 && issued == old(issued) + [draft]
      ensures places == old(places)[ordinal := Unpublished] && SameUnpublished(old(places), places)
    {
      hide Conserved, PartsOk, PartitionFor, Newest, BuffersOk, ObjectsOk, ReportsMatch;
      DroppingConserves(issued, places, buffers, objects, draft);
      nextOrdinal := nextOrdinal + 1;
      places, issued := places[ordinal := Unpublished], issued + [draft];
    }

    /** The buffer a new record would make. */
    function Extended(draft: Draft): seq<Record>
      reads this
      requires shardCount > 0
    {
      var p := PartitionFor(draft, hash, shardCount);
      (if p in buffers then buffers[p] else []) + [Record(nextOrdinal, draft)]
    }

    /**
     Appends a record of any family. `publishOk` is false when a required live
     publish of a raw market event fails; `fate` is how a flush goes if one is due.
     */
    method Append(draft: Draft, publishOk: bool, fate: Fate) returns (ok: bool)
      requires Valid()
      modifies this
      ensures Valid() && nextOrdinal == old(nextOrdinal) + 1 && issued == old(issued) + [draft]
      ensures SameUnpublished(old(places), places) && places.Keys == old(places).Keys + {old(nextOrdinal)}
      ensures places[old(nextOrdinal)].Unpublished? <==> draft.RawMarketEvent? && !publishOk
      ensures var p, extended := PartitionFor(draft, hash, shardCount), old(Extended(draft));
              var dropped, full := draft.RawMarketEvent? && !publishOk, |extended| >= flushRecords;
              && (ok <==> !dropped && (full ==> fate != NotWritten))
              && buffers == (if dropped then old(buffers)
                             else if full then old(buffers) - {p} else old(buffers)[p := extended])
              && objects == old(objects) +
                   (if dropped || !full then []
                    else [StoredObject(ObjectId(p, PartCount(old(partNumbers), p) + 1), extended, fate)])
    {
      hide Conserved, PartsOk, PartitionFor, Newest, BuffersOk, ObjectsOk, ReportsMatch, SameUnpublished;
      var ordinal := nextOrdinal;
      if draft.RawMarketEvent? && !publishOk {
        DropUnpublished(draft, ordinal);
        assert places.Keys == old(places).Keys + {ordinal};
        return false;
      }
      ghost var places0 := places;
      var p := BufferRecord(draft, ordinal);
      ghost var places1 := places;
      ok := true;
      if |buffers[p]| >= flushRecords {
        ok := FlushPartition(p, fate);
        SameUnpublishedChains(places0, places1, places);
        SameUnpublishedAt(places1, places, ordinal);
        assert buffers == old(buffers) - {p};
      }
    }

    /**
     Flushes every partition, then the live publisher; stops early only when a
     local write fails, and then exactly the object just taken out is unwritten.
     */
    method FlushAll(fates: Partition -> Fate, publisherOk: bool) returns (end: FlushEnd)
      requires Valid()
      modifies this
      ensures Valid() && nextOrdinal == old(nextOrdinal)
      ensures issued == old(issued) && SameUnpublished(old(places), places) && places.Keys == old(places).Keys
      ensures FlushedFrom(old(buffers), old(objects), buffers, objects, fates)
      ensures end == WriteFailed <==> !(forall p :: p in old(buffers) ==> fates(p) != NotWritten)
      ensures end == AllFlushed ==> publisherOk
      ensures end == PublisherFailed ==> !publisherOk
      ensures (forall p :: p in old(buffers) ==> fates(p) != NotWritten) ==> buffers == map[]
      ensures !(forall p :: p in old(buffers) ==> fates(p) != NotWritten) ==>
                && |objects| > |old(objects)| && objects[|objects| - 1].fate == NotWritten
                && forall k :: |old(objects)| <= k < |objects| - 1 ==> objects[k].fate != NotWritten
    {
      hide Conserved, PartsOk, PartitionFor, Newest, BuffersOk, ObjectsOk, ReportsMatch, SameUnpublished, FlushedFrom;
      NothingFlushed(buffers, objects, fates);
      var left := buffers.Keys;
      SameIsSame(places);
      while left != {}
        invariant Valid() && nextOrdinal == old(nextOrdinal)
        invariant FlushedFrom(old(buffers), old(objects), buffers, objects, fates)
        invariant issued == old(issued) && SameUnpublished(old(places), places) && places.Keys == old(places).Keys
        invariant buffers.Keys == left <= old(buffers).Keys
        invariant |old(objects)| <= |objects|
        invariant forall k :: |old(objects)| <= k < |objects| ==> objects[k].fate != NotWritten
        invariant forall p :: p in old(buffers) && p !in left ==> fates(p) != NotWritten
        decreases left
      {
        ghost var places0, buffers0, objects0 := places, buffers, objects;
        var p :| p in left;
        var written := FlushPartition(p, fates(p));
        SameUnpublishedChains(old(places), places0, places);
        left := left - {p};
        FlushedStep(old(buffers), old(objects), buffers0, objects0, fates, p, objects[|objects0|]);
        if !written {
          return WriteFailed;
        }
      }
      return if publisherOk then AllFlushed else PublisherFailed;
    }

    /** No ordinal was dropped and no object went unwritten. */
    ghost predicate NothingLost()
      reads this
    {
      && (forall o :: o in places ==> !places[o].Unpublished?)
      && (forall k :: 0 <= k < |objects| ==> objects[k].fate != NotWritten)
    }

    /**
     One call. It is clean when it returned no publish or write error: an append's
     Ok, a flush not ended by a write.
     */
    method Do(op: Op) returns (clean: bool)
      requires Valid()
      modifies this
      ensures Valid() && issued == old(issued) + Drafts([op])
      ensures DropsOnly(old(places), places, op.AppendOp? && Unpublishable(op))
      ensures old(objects) <= objects
      ensures NothingLost() <==> old(NothingLost()) && clean
      ensures ErrorFree(op) ==> clean
    {
      hide Conserved, PartsOk, PartitionFor, Newest, BuffersOk, ObjectsOk, ReportsMatch;
      match op {
      case AppendOp(draft, publishOk, fate) =>
        clean := Append(draft, publishOk, fate);
        assert old(nextOrdinal) in places;
        assert |objects| > |old(objects)| ==> objects[|old(objects)|].fate == fate;
      case FlushOp(fates, publisherOk) =>
        var end := FlushAll(fates, publisherOk);
        clean := end != WriteFailed;
      case ManifestOp(uploadOk) =>
        var _ := UploadManifest(uploadOk);
        clean := true;
      }
      assert forall k :: 0 <= k < |old(objects)| ==> objects[k] == old(objects)[k];
      assert forall o :: o in old(places) ==> o in places && (places[o].Unpublished? <==> old(places)[o].Unpublished?);
    }

    /**
     Sink conservation over any run of operations: every ordinal lies in exactly
     one buffer, uploaded object or failed upload, except exactly those whose
     required publish failed and those in an object that was never written. So
     nothing is missing exactly when every call was clean.
     */
    method Perform(ops: seq<Op>) returns (clean: bool)
      requires Valid() && issued == [] && NothingLost()
      modifies this
      ensures Valid() && issued == Drafts(ops) && ObjectsOk(objects, hash, shardCount)
      ensures forall o :: 1 <= o <= |issued| ==>
                (KeptOnce(buffers, objects, IssuedRecord(issued, o)) <==>
                   o !in DroppedOrdinals(ops) && !Unwritten(objects, IssuedRecord(issued, o)))
      ensures clean <==> forall o :: 1 <= o <= |issued| ==> KeptOnce(buffers, objects, IssuedRecord(issued, o))
      ensures (forall i :: 0 <= i < |ops| ==> ErrorFree(ops[i])) ==> clean
    {
      hide Conserved, PartsOk, PartitionFor, Newest, BuffersOk, ReportsMatch, KeptOnce, Unwritten, ErrorFree,
           ObjectsOk, DroppedAre;
      clean := PerformEach(ops);
      EveryOrdinalOnce(issued, places, buffers, objects, hash, shardCount, DroppedOrdinals(ops));
    }

    method PerformEach(ops: seq<Op>) returns (clean: bool)
      requires Valid() && issued == [] && NothingLost()
      modifies this
      ensures Valid() && issued == Drafts(ops) && DroppedAre(places, DroppedOrdinals(ops))
      ensures clean <==> NothingLost()
      ensures (forall i :: 0 <= i < |ops| ==> ErrorFree(ops[i])) ==> clean
    {
      hide Conserved, PartsOk, PartitionFor, Newest, BuffersOk, ObjectsOk, ReportsMatch, ErrorFree, DropsOnly;
      clean := true;
      assert ops[..0] == [];
      PlacesAreIssued(issued, places, buffers, objects);
      for i := 0 to |ops|
        invariant Valid() && issued == Drafts(ops[..i]) && DroppedAre(places, DroppedOrdinals(ops[..i]))
        invariant clean <==> NothingLost()
        invariant (forall j :: 0 <= j < i ==> ErrorFree(ops[j])) ==> clean
      {
        clean := PerformOne(ops, i, clean);
      }
      assert ops[..|ops|] == ops;
    }

    method PerformOne(ops: seq<Op>, i: nat, before: bool) returns (clean: bool)
      requires i < |ops| && Valid() && issued == Drafts(ops[..i]) && DroppedAre(places, DroppedOrdinals(ops[..i]))
      requires before <==> NothingLost()
      modifies this
      ensures Valid() && issued == Drafts(ops[..i + 1]) && DroppedAre(places, DroppedOrdinals(ops[..i + 1]))
      ensures clean <==> NothingLost()
      ensures before && ErrorFree(ops[i]) ==> clean
    {
      hide Conserved, PartsOk, PartitionFor, Newest, BuffersOk, ObjectsOk, ReportsMatch, ErrorFree, DropsOnly,
           DroppedAre, Unpublishable, Drafts, DroppedOrdinals;
      OpsSnoc(ops, i);
      PlacesAreIssued(issued, places, buffers, objects);
      ghost var places0, n := places, |issued|;
      var ok := Do(ops[i]);
      PlacesAreIssued(issued, places, buffers, objects);
      DroppedStep(places0, places, n, DroppedOrdinals(ops[..i]), ops[i].AppendOp? && Unpublishable(ops[i]));
      assert DroppedOrdinals(ops[..i]) + {} == DroppedOrdinals(ops[..i]);
      return before && ok;
    }

    /** What a report says: every ordinal issued, and of uploads and failures the newest and how many in all. */
    function Report(): (r: StorageReport)
      reads this
      requires Valid()
      ensures r.recordCount == |issued| && r.manifestWritten == manifestWritten
      ensures r.uploaded == Newest(allUploaded, 1_000) && r.uploadedCount == |allUploaded|
      ensures r.uploadedRetained == |r.uploaded| && r.uploadedRetained + r.uploadedDropped == r.uploadedCount
      ensures r.uploaded == allUploaded[r.uploadedDropped..] && (r.uploadedDropped > 0 ==> r.uploadedRetained == 1_000)
      ensures r.failed == Newest(allFailed, 200) && r.failedCount == |allFailed|
      ensures r.failedRetained == |r.failed| && r.failedRetained + r.failedDropped == r.failedCount
      ensures r.failed == allFailed[r.failedDropped..] && (r.failedDropped > 0 ==> r.failedRetained == 200)
    {
      StorageReport(nextOrdinal - 1,
                    uploadedCount, |uploaded|, uploadedDropped, uploaded,
                    failedCount, |failed|, failedDropped, failed,
                    manifestWritten)
    }

    /** The manifest reports itself too; it is recorded only once its upload succeeded. */
    method UploadManifest(uploadOk: bool) returns (manifest: StorageReport)
      requires Valid()
      modifies this`manifestWritten, this`uploaded, this`uploadedCount, this`uploadedDropped, this`allUploaded
      ensures Valid()
      ensures manifest.uploaded == Newest(old(allUploaded) + [ManifestEntry], MAX_REPORTED_OBJECTS)
      ensures manifest.uploadedRetained + manifest.uploadedDropped == manifest.uploadedCount == |old(allUploaded)| + 1
      ensures manifest.failed == Newest(allFailed, MAX_REPORTED_FAILURES)
      ensures manifest.failedRetained + manifest.failedDropped == manifest.failedCount == |allFailed|
      ensures manifest.recordCount == nextOrdinal - 1
      ensures uploadOk ==> Report() == manifest
      ensures !uploadOk ==> allUploaded == old(allUploaded)
    {
      hide Conserved, PartsOk, PartitionFor, Newest, BuffersOk, ObjectsOk, ReportsMatch;
      manifestWritten := true;
      manifest := Report();
      var entries, dropped :=
        PushCapped(manifest.uploaded, ManifestEntry, MAX_REPORTED_OBJECTS, manifest.uploadedDropped, allUploaded);
      manifest := manifest.(uploaded := entries, uploadedDropped := dropped,
                            uploadedCount := manifest.uploadedCount + 1, uploadedRetained := |entries|);
      if uploadOk {
        ManifestMatchesReports(allUploaded, allFailed, objects);
        RecordUploaded(ManifestEntry);
      }
    }
  }

  // ------------------------------------------------------------------- flushes

  /** Every new object is one buffer of before, whole, under the fate it was given; every buffer gone made one. */
  ghost predicate FlushedFrom(buffers0: map<Partition, seq<Record>>, objects0: seq<StoredObject>,
                              buffers: map<Partition, seq<Record>>, objects: seq<StoredObject>,
                              fates: Partition -> Fate)
  {
    && objects0 <= objects
    && (forall k :: |objects0| <= k < |objects| ==> MadeFrom(buffers0, objects[k], fates))
    && (forall p :: p in buffers ==> p in buffers0 && buffers[p] == buffers0[p])
    && (forall p :: p in buffers0 && p !in buffers ==> HasNew(objects, |objects0|, p))
    && (forall j, k :: |objects0| <= j < k < |objects| ==> objects[j].id.partition != objects[k].id.partition)
    && (forall k :: |objects0| <= k < |objects| ==> objects[k].id.partition !in buffers)
  }

  predicate MadeFrom(buffers: map<Partition, seq<Record>>, o: StoredObject, fates: Partition -> Fate)
  {
    var p := o.id.partition;
    p in buffers && o.records == buffers[p] && o.fate == fates(p)
  }

  ghost predicate HasNew(objects: seq<StoredObject>, n: nat, p: Partition)
  {
    exists k :: n <= k < |objects| && objects[k].id.partition == p
  }

  lemma NothingFlushed(buffers: map<Partition, seq<Record>>, objects: seq<StoredObject>, fates: Partition -> Fate)
    ensures FlushedFrom(buffers, objects, buffers, objects, fates)
  {
  }

  lemma FlushedStep(buffers0: map<Partition, seq<Record>>, objects0: seq<StoredObject>,
                    buffers: map<Partition, seq<Record>>, objects: seq<StoredObject>, fates: Partition -> Fate,
                    p: Partition, flushed: StoredObject)
    requires FlushedFrom(buffers0, objects0, buffers, objects, fates)
    requires p in buffers && flushed.id.partition == p && flushed.records == buffers[p] && flushed.fate == fates(p)
    ensures FlushedFrom(buffers0, objects0, buffers - {p}, objects + [flushed], fates)
  {
    forall q | q in buffers0 && q !in buffers - {p}
      ensures HasNew(objects + [flushed], |objects0|, q)
    {
      if q == p {
        assert (objects + [flushed])[|objects|].id.partition == q;
      } else {
        assert HasNew(objects, |objects0|, q);
        var k :| |objects0| <= k < |objects| && objects[k].id.partition == q;
        assert (objects + [flushed])[k].id.partition == q;
      }
    }
  }

  // --------------------------------------------------------------- operations

  datatype Op =
    | AppendOp(draft: Draft, publishOk: bool, fate: Fate)
    | FlushOp(fates: Partition -> Fate, publisherOk: bool)
    | ManifestOp(uploadOk: bool)

  /** A required live publish that fails: the append spends its ordinal on nothing. */
  predicate Unpublishable(op: Op)
    requires op.AppendOp?
  {
    op.draft.RawMarketEvent? && !op.publishOk
  }

  /** No publish error, and no failed local write. */
  ghost predicate ErrorFree(op: Op)
  {
    match op
    case AppendOp(_, _, fate) => !Unpublishable(op) && fate != NotWritten
    case FlushOp(fates, _) => forall p :: fates(p) != NotWritten
    case ManifestOp(_) => true
  }

  /** Nothing placed before was dropped or restored; whatever is new was dropped or not. */
  ghost predicate DropsOnly(before: map<nat, Place>, after: map<nat, Place>, dropped: bool)
  {
    forall o :: o in after ==> (after[o].Unpublished? <==> if o in before then before[o].Unpublished? else dropped)
  }

  ghost predicate DroppedAre(places: map<nat, Place>, dropped: set<nat>)
  {
    forall o :: o in places ==> (places[o].Unpublished? <==> o in dropped)
  }

  lemma DroppedStep(before: map<nat, Place>, after: map<nat, Place>, n: nat, dropped: set<nat>, last: bool)
    requires DroppedAre(before, dropped) && DropsOnly(before, after, last)
    requires forall o :: o in before <==> 1 <= o <= n
    requires forall o :: o in after ==> 1 <= o <= n + 1
    requires forall o :: o in dropped ==> o <= n
    ensures DroppedAre(after, dropped + (if last then {n + 1} else {}))
  {
  }

  function Drafts(ops: seq<Op>): seq<Draft>
  {
    if ops == [] then []
    else
      var last := ops[|ops| - 1];
      Drafts(ops[..|ops| - 1]) + (if last.AppendOp? then [last.draft] else [])
  }

  function DroppedOrdinals(ops: seq<Op>): set<nat>
  {
    if ops == [] then {}
    else
      var front, last := ops[..|ops| - 1], ops[|ops| - 1];
      DroppedOrdinals(front) + (if last.AppendOp? && Unpublishable(last) then {|Drafts(front)| + 1} else {})
  }

  lemma OpsSnoc(ops: seq<Op>, i: nat)
    requires i < |ops|
    ensures var last := ops[i];
            && Drafts(ops[..i + 1]) == Drafts(ops[..i]) + (if last.AppendOp? then [last.draft] else [])
            && Drafts([last]) == (if last.AppendOp? then [last.draft] else [])
            && DroppedOrdinals(ops[..i + 1]) == DroppedOrdinals(ops[..i]) +
                 (if last.AppendOp? && Unpublishable(last) then {|Drafts(ops[..i])| + 1} else {})
            && forall o :: o in DroppedOrdinals(ops[..i]) ==> o <= |Drafts(ops[..i])|
  {
    assert ops[..i + 1][..i] == ops[..i];
    assert [ops[i]][..0] == [];
    DroppedAreDrafts(ops[..i]);
  }

  lemma {:induction false} DroppedAreDrafts(ops: seq<Op>)
    ensures forall o :: o in DroppedOrdinals(ops) ==> 1 <= o <= |Drafts(ops)|
  {
    if ops != [] {
      DroppedAreDrafts(ops[..|ops| - 1]);
    }
  }

  lemma PlacesAreIssued(issued: seq<Draft>, places: map<nat, Place>, buffers: map<Partition, seq<Record>>,
                        objects: seq<StoredObject>)
    requires Conserved(issued, places, buffers, objects)
    ensures forall o :: o in places <==> 1 <= o <= |issued|
  {
  }

  // ------------------------------------------------------------------- reports

  function EntriesOf(objects: seq<StoredObject>, fate: Fate): seq<Entry>
  {
    if objects == [] then []
    else
      var last := objects[|objects| - 1];
      EntriesOf(objects[..|objects| - 1], fate) +
      (if last.fate == fate then [ObjectEntry(last.id, |last.records|)] else [])
  }

  function WithoutManifests(entries: seq<Entry>): seq<Entry>
  {
    if entries == [] then []
    else
      var last := entries[|entries| - 1];
      WithoutManifests(entries[..|entries| - 1]) + (if last.ManifestEntry? then [] else [last])
  }

  /** Reports name exactly the objects uploaded, and exactly those whose upload failed, in flush order. */
  ghost predicate ReportsMatch(allUploaded: seq<Entry>, allFailed: seq<Entry>, objects: seq<StoredObject>)
  {
    WithoutManifests(allUploaded) == EntriesOf(objects, Uploaded) && allFailed == EntriesOf(objects, UploadFailed)
  }

  lemma FlushMatchesReports(allUploaded: seq<Entry>, allFailed: seq<Entry>, objects: seq<StoredObject>,
                            flushed: StoredObject)
    requires ReportsMatch(allUploaded, allFailed, objects)
    ensures var entry := ObjectEntry(flushed.id, |flushed.records|);
            ReportsMatch(allUploaded + (if flushed.fate.Uploaded? then [entry] else []),
                         allFailed + (if flushed.fate.UploadFailed? then [entry] else []), objects + [flushed])
  {
    var entry := ObjectEntry(flushed.id, |flushed.records|);
    assert (objects + [flushed])[..|objects|] == objects;
    assert (allUploaded + [entry])[..|allUploaded|] == allUploaded;
    assert allUploaded + [] == allUploaded && allFailed + [] == allFailed;
  }

  lemma ManifestMatchesReports(allUploaded: seq<Entry>, allFailed: seq<Entry>, objects: seq<StoredObject>)
    requires ReportsMatch(allUploaded, allFailed, objects)
    ensures ReportsMatch(allUploaded + [ManifestEntry], allFailed, objects)
  {
    assert (allUploaded + [ManifestEntry])[..|allUploaded|] == allUploaded;
  }

  // ------------------------------------------------------------ conservation

  ghost predicate AllIn(records: seq<Record>, p: Partition, hash: string -> nat, shardCount: nat)
    requires shardCount > 0
  {
    forall i :: 0 <= i < |records| ==> PartitionFor(records[i].draft, hash, shardCount) == p
  }

  /** Buffers are nonempty and hold only records of their partition. */
  ghost predicate BuffersOk(buffers: map<Partition, seq<Record>>, hash: string -> nat, shardCount: nat)
    requires shardCount > 0
  {
    forall p :: p in buffers ==> buffers[p] != [] && AllIn(buffers[p], p, hash, shardCount)
  }

  /** So do objects. */
  ghost predicate ObjectsOk(objects: seq<StoredObject>, hash: string -> nat, shardCount: nat)
    requires shardCount > 0
  {
    forall k :: 0 <= k < |objects| ==>
      objects[k].records != [] && AllIn(objects[k].records, objects[k].id.partition, hash, shardCount)
  }

  lemma FlushKeepsPartitions(buffers: map<Partition, seq<Record>>, objects: seq<StoredObject>,
                             hash: string -> nat, shardCount: nat, p: Partition, flushed: StoredObject)
    requires shardCount > 0 && BuffersOk(buffers, hash, shardCount) && ObjectsOk(objects, hash, shardCount)
    requires p in buffers && flushed.records == buffers[p] && flushed.id.partition == p
    ensures BuffersOk(buffers - {p}, hash, shardCount) && ObjectsOk(objects + [flushed], hash, shardCount)
  {
  }

  function PartCount(partNumbers: map<Partition, nat>, p: Partition): nat
  {
    if p in partNumbers then partNumbers[p] else 0
  }

  ghost predicate HasPart(objects: seq<StoredObject>, p: Partition, n: nat)
  {
    exists i :: 0 <= i < |objects| && objects[i].id == ObjectId(p, n)
  }

  /** Each partition's objects carry the part numbers 1..k, in order, without holes. */
  ghost predicate PartsOk(partNumbers: map<Partition, nat>, objects: seq<StoredObject>)
  {
    && (forall k :: 0 <= k < |objects| ==> 1 <= objects[k].id.part <= PartCount(partNumbers, objects[k].id.partition))
    && (forall j, k :: 0 <= j < k < |objects| && objects[j].id.partition == objects[k].id.partition ==>
          objects[j].id.part < objects[k].id.part)
    && (forall p, n: nat :: 1 <= n <= PartCount(partNumbers, p) ==> HasPart(objects, p, n))
  }

  predicate Holds(buffers: map<Partition, seq<Record>>, objects: seq<StoredObject>, place: Place, record: Record)
  {
    match place
    case Buffered(p, i) => p in buffers && i < |buffers[p]| && buffers[p][i] == record
    case Flushed(k, i) => k < |objects| && i < |objects[k].records| && objects[k].records[i] == record
    case Unpublished => false
  }

  function IssuedRecord(issued: seq<Draft>, ordinal: nat): Record
    requires 1 <= ordinal <= |issued|
  {
    Record(ordinal, issued[ordinal - 1])
  }

  predicate AtPlace(places: map<nat, Place>, ordinal: nat, place: Place)
  {
    ordinal in places && places[ordinal] == place
  }

  /**
   Conservation: the ordinals issued are 1..n; each was dropped unpublished or
   has one place, which holds its record unchanged, and every occupied slot of a
   buffer or object is the place of the ordinal in it.
   */
  ghost predicate Conserved(issued: seq<Draft>, places: map<nat, Place>,
                            buffers: map<Partition, seq<Record>>, objects: seq<StoredObject>)
  {
    && (forall o :: o in places <==> 1 <= o <= |issued|)
    && (forall o :: o in places ==>
          places[o].Unpublished? || Holds(buffers, objects, places[o], IssuedRecord(issued, o)))
    && (forall p, i: nat :: p in buffers && i < |buffers[p]| ==>
          AtPlace(places, buffers[p][i].ordinal, Buffered(p, i)))
    && (forall k: nat, i: nat :: k < |objects| && i < |objects[k].records| ==>
          AtPlace(places, objects[k].records[i].ordinal, Flushed(k, i)))
  }

  /** Every ordinal placed before is still placed, and none of them became or ceased to be dropped. */
  ghost predicate SameUnpublished(places: map<nat, Place>, places': map<nat, Place>)
  {
    forall o :: o in places ==> o in places' && (places[o].Unpublished? <==> places'[o].Unpublished?)
  }

  lemma SameUnpublishedChains(a: map<nat, Place>, b: map<nat, Place>, c: map<nat, Place>)
    requires SameUnpublished(a, b) && SameUnpublished(b, c)
    ensures SameUnpublished(a, c)
  {
  }

  lemma SameUnpublishedAt(a: map<nat, Place>, b: map<nat, Place>, o: nat)
    requires SameUnpublished(a, b) && o in a
    ensures o in b && (a[o].Unpublished? <==> b[o].Unpublished?)
  {
  }

  lemma SameIsSame(places: map<nat, Place>)
    ensures SameUnpublished(places, places)
  {
  }

  /** Every place in buffer p becomes the same place in object k. */
  ghost function Moved(places: map<nat, Place>, p: Partition, k: nat): map<nat, Place>
  {
    map o | o in places ::
      if places[o].Buffered? && places[o].partition == p then Flushed(k, places[o].index) else places[o]
  }

  lemma FlushConserves(issued: seq<Draft>, places: map<nat, Place>, buffers: map<Partition, seq<Record>>,
                       objects: seq<StoredObject>, p: Partition, flushed: StoredObject)
    requires Conserved(issued, places, buffers, objects) && p in buffers && flushed.records == buffers[p]
    ensures Conserved(issued, Moved(places, p, |objects|), buffers - {p}, objects + [flushed])
    ensures SameUnpublished(places, Moved(places, p, |objects|)) && Moved(places, p, |objects|).Keys == places.Keys
  {
    var places', buffers', objects' := Moved(places, p, |objects|), buffers - {p}, objects + [flushed];
    forall o | o in places'
      ensures places'[o].Unpublished? || Holds(buffers', objects', places'[o], IssuedRecord(issued, o))
    {
      assert places[o].Unpublished? || Holds(buffers, objects, places[o], IssuedRecord(issued, o));
    }
    forall q, i: nat | q in buffers' && i < |buffers'[q]|
      ensures AtPlace(places', buffers'[q][i].ordinal, Buffered(q, i))
    {
      assert AtPlace(places, buffers[q][i].ordinal, Buffered(q, i));
    }
    forall k: nat, i: nat | k < |objects'| && i < |objects'[k].records|
      ensures AtPlace(places', objects'[k].records[i].ordinal, Flushed(k, i))
    {
      if k < |objects| {
        assert AtPlace(places, objects[k].records[i].ordinal, Flushed(k, i));
      } else {
        assert AtPlace(places, buffers[p][i].ordinal, Buffered(p, i));
      }
    }
  }

  lemma BufferingConserves(issued: seq<Draft>, places: map<nat, Place>, buffers: map<Partition, seq<Record>>,
                           objects: seq<StoredObject>, p: Partition, record: Record)
    requires Conserved(issued, places, buffers, objects) && record.ordinal == |issued| + 1
    ensures var buffer := if p in buffers then buffers[p] else [];
            Conserved(issued + [record.draft], places[record.ordinal := Buffered(p, |buffer|)],
                      buffers[p := buffer + [record]], objects)
            && SameUnpublished(places, places[record.ordinal := Buffered(p, |buffer|)])
  {
    var buffer := if p in buffers then buffers[p] else [];
    var places', buffers' := places[record.ordinal := Buffered(p, |buffer|)], buffers[p := buffer + [record]];
    forall o | o in places'
      ensures places'[o].Unpublished? || Holds(buffers', objects, places'[o], IssuedRecord(issued + [record.draft], o))
    {
      assert o != record.ordinal ==>
               places[o].Unpublished? || Holds(buffers, objects, places[o], IssuedRecord(issued, o));
    }
    forall q, i: nat | q in buffers' && i < |buffers'[q]|
      ensures AtPlace(places', buffers'[q][i].ordinal, Buffered(q, i))
    {
      if q in buffers && i < |buffers[q]| {
        assert AtPlace(places, buffers[q][i].ordinal, Buffered(q, i));
      }
    }
    forall k: nat, i: nat | k < |objects| && i < |objects[k].records|
      ensures AtPlace(places', objects[k].records[i].ordinal, Flushed(k, i))
    {
      assert AtPlace(places, objects[k].records[i].ordinal, Flushed(k, i));
    }
  }

  lemma DroppingConserves(issued: seq<Draft>, places: map<nat, Place>, buffers: map<Partition, seq<Record>>,
                          objects: seq<StoredObject>, draft: Draft)
    requires Conserved(issued, places, buffers, objects)
    ensures Conserved(issued + [draft], places[|issued| + 1 := Unpublished], buffers, objects)
    ensures SameUnpublished(places, places[|issued| + 1 := Unpublished])
  {
    var places' := places[|issued| + 1 := Unpublished];
    forall o | o in places'
      ensures places'[o].Unpublished? || Holds(buffers, objects, places'[o], IssuedRecord(issued + [draft], o))
    {
      assert o != |issued| + 1 ==>
               places[o].Unpublished? || Holds(buffers, objects, places[o], IssuedRecord(issued, o));
    }
    forall q, i: nat | q in buffers && i < |buffers[q]|
      ensures AtPlace(places', buffers[q][i].ordinal, Buffered(q, i))
    {
      assert AtPlace(places, buffers[q][i].ordinal, Buffered(q, i));
    }
    forall k: nat, i: nat | k < |objects| && i < |objects[k].records|
      ensures AtPlace(places', objects[k].records[i].ordinal, Flushed(k, i))
    {
      assert AtPlace(places, objects[k].records[i].ordinal, Flushed(k, i));
    }
  }

  lemma FlushNumbersParts(partNumbers: map<Partition, nat>, objects: seq<StoredObject>, flushed: StoredObject)
    requires PartsOk(partNumbers, objects) && flushed.id.part == PartCount(partNumbers, flushed.id.partition) + 1
    ensures PartsOk(partNumbers[flushed.id.partition := flushed.id.part], objects + [flushed])
  {
    var p, objects' := flushed.id.partition, objects + [flushed];
    var partNumbers' := partNumbers[p := flushed.id.part];
    forall q, n: nat | 1 <= n <= PartCount(partNumbers', q)
      ensures HasPart(objects', q, n)
    {
      if q == p && n == flushed.id.part {
        assert objects'[|objects|].id == ObjectId(q, n);
      } else {
        assert HasPart(objects, q, n);
        var i :| 0 <= i < |objects| && objects[i].id == ObjectId(q, n);
        assert objects'[i].id == ObjectId(q, n);
      }
    }
  }

  /**
   Two flushes of a run produce one object key exactly when their partitions
   differ only in names that read alike and their part numbers are equal; a
   partition whose names hold its label once never shares a key.
   */
  lemma KeysAreNeverReused(partNumbers: map<Partition, nat>, objects: seq<StoredObject>, j: nat, k: nat,
                           runId: string, dateText: int -> string)
    requires PartsOk(partNumbers, objects) && j < k < |objects| && FaithfulDates(dateText)
    ensures var a, b := objects[j].id, objects[k].id;
            && (ObjectKey(a, runId, dateText) == ObjectKey(b, runId, dateText) <==>
                  a.partition != b.partition && a.part == b.part && SameText(a.partition, b.partition))
            && (!SecondLabel(a.partition) || WrittenByProgram(a.partition) ==>
                  ObjectKey(a, runId, dateText) != ObjectKey(b, runId, dateText))
  {
    hide ObjectKey, FaithfulDates, SameText, SecondLabel, WrittenByProgram;
    var a, b := objects[j].id, objects[k].id;
    KeysAgreeIff(a, b, runId, dateText);
    KeyIsUniqueIff(a, runId, dateText);
    if WrittenByProgram(a.partition) {
      ProgramNamesArePlain(a.partition);
      PlainNamesHaveOneLabel(a.partition);
    }
  }

  /** A slot of a buffer, or of an object that was written: where a record is not lost. */
  predicate Keeps(buffers: map<Partition, seq<Record>>, objects: seq<StoredObject>, place: Place, record: Record)
  {
    Holds(buffers, objects, place, record) && (place.Flushed? ==> objects[place.objectIndex].fate != NotWritten)
  }

  /** One and only one slot of a buffer, an uploaded object or a failed upload holds the record. */
  ghost predicate KeptOnce(buffers: map<Partition, seq<Record>>, objects: seq<StoredObject>, record: Record)
  {
    exists a :: Keeps(buffers, objects, a, record) && forall b :: Keeps(buffers, objects, b, record) ==> b == a
  }

  /** The record went into an object whose local write failed, after its buffer was already gone. */
  ghost predicate Unwritten(objects: seq<StoredObject>, record: Record)
  {
    exists k :: 0 <= k < |objects| && objects[k].fate == NotWritten && record in objects[k].records
  }

  /**
   Conservation read off: an issued record is kept once, exactly unless it was
   dropped unpublished or lies in an object that was never written.
   */
  lemma EveryRecordOnce(issued: seq<Draft>, places: map<nat, Place>, buffers: map<Partition, seq<Record>>,
                        objects: seq<StoredObject>, o: nat)
    requires Conserved(issued, places, buffers, objects) && 1 <= o <= |issued|
    ensures KeptOnce(buffers, objects, IssuedRecord(issued, o)) <==>
            !places[o].Unpublished? && !Unwritten(objects, IssuedRecord(issued, o))
  {
    var record, place := IssuedRecord(issued, o), places[o];
    assert place.Unpublished? || Holds(buffers, objects, place, record);
    forall a | Holds(buffers, objects, a, record)
      ensures a == place
    {
      SlotIsPlace(issued, places, buffers, objects, record, a);
    }
    if Unwritten(objects, record) {
      var k :| 0 <= k < |objects| && objects[k].fate == NotWritten && record in objects[k].records;
      var i :| 0 <= i < |objects[k].records| && objects[k].records[i] == record;
      assert Holds(buffers, objects, Flushed(k, i), record);
    } else if !place.Unpublished? {
      assert Keeps(buffers, objects, place, record);
    }
  }

  lemma EveryOrdinalOnce(issued: seq<Draft>, places: map<nat, Place>, buffers: map<Partition, seq<Record>>,
                         objects: seq<StoredObject>, hash: string -> nat, shardCount: nat, dropped: set<nat>)
    requires Conserved(issued, places, buffers, objects) && DroppedAre(places, dropped)
    requires shardCount > 0 && ObjectsOk(objects, hash, shardCount)
    ensures forall o :: 1 <= o <= |issued| ==>
              (KeptOnce(buffers, objects, IssuedRecord(issued, o)) <==>
                 o !in dropped && !Unwritten(objects, IssuedRecord(issued, o)))
    ensures (forall o :: 1 <= o <= |issued| ==> KeptOnce(buffers, objects, IssuedRecord(issued, o))) <==>
            && (forall o :: o in places ==> !places[o].Unpublished?)
            && (forall k :: 0 <= k < |objects| ==> objects[k].fate != NotWritten)
  {
    hide KeptOnce, Conserved, AllIn;
    PlacesAreIssued(issued, places, buffers, objects);
    forall o | 1 <= o <= |issued|
      ensures KeptOnce(buffers, objects, IssuedRecord(issued, o)) <==>
              o !in dropped && !Unwritten(objects, IssuedRecord(issued, o))
    {
      EveryRecordOnce(issued, places, buffers, objects, o);
    }
    forall k | 0 <= k < |objects| && objects[k].fate == NotWritten
      ensures exists o :: 1 <= o <= |issued| && !KeptOnce(buffers, objects, IssuedRecord(issued, o))
    {
      var record := objects[k].records[0];
      SlotsHoldIssued(issued, places, buffers, objects, Flushed(k, 0), record);
      assert record in objects[k].records;
      assert Unwritten(objects, IssuedRecord(issued, record.ordinal));
    }
  }

  lemma SlotsHoldIssued(issued: seq<Draft>, places: map<nat, Place>, buffers: map<Partition, seq<Record>>,
                        objects: seq<StoredObject>, a: Place, record: Record)
    requires Conserved(issued, places, buffers, objects) && Holds(buffers, objects, a, record)
    ensures 1 <= record.ordinal <= |issued| && record == IssuedRecord(issued, record.ordinal)
  {
    SlotIsPlace(issued, places, buffers, objects, record, a);
  }

  lemma SlotIsPlace(issued: seq<Draft>, places: map<nat, Place>, buffers: map<Partition, seq<Record>>,
                    objects: seq<StoredObject>, record: Record, place: Place)
    requires Conserved(issued, places, buffers, objects)
    ensures !place.Unpublished? && Holds(buffers, objects, place, record) ==> AtPlace(places, record.ordinal, place)
  {
    if Holds(buffers, objects, place, record) {
      match place
      case Buffered(p, i) => assert AtPlace(places, buffers[p][i].ordinal, Buffered(p, i));
      case Flushed(k, i) => assert AtPlace(places, objects[k].records[i].ordinal, Flushed(k, i));
      case Unpublished =>
    }
  }

  // ------------------------------------------------------------ from writer to reader

  /**
   End to end: a record in any object of the sink whose own timestamp lies in a
   range is under a key that a reader of that range accepts, and, when its names
   are listed ones, under a prefix the S3 reader lists for an hour of that range.
   */
  lemma StoredRecordIsFound(objects: seq<StoredObject>, hash: string -> nat, shardCount: nat, k: nat, i: nat,
                            runId: string, dateText: int -> string, start: int, end: int)
    requires shardCount > 0 && ObjectsOk(objects, hash, shardCount) && FaithfulDates(dateText)
    requires k < |objects| && i < |objects[k].records| && start <= objects[k].records[i].draft.timestampMs < end
    ensures var key, draft := ObjectKey(objects[k].id, runId, dateText), objects[k].records[i].draft;
            && KeyMatchesParts(key, Hours(start, end), dateText)
            && objects[k].id.partition.part in Hours(start, end)
            && (ListedDraft(draft) ==>
                  exists part :: part in Hours(start, end) && CoveredByListing(key, part, dateText))
  {
    hide ObjectKey, PartitionFor, KeyMatchesParts, CoveredByListing, FaithfulDates, PlainNames, Listed, ListedDraft,
         WrittenByProgram;
    var o, draft := objects[k].id, objects[k].records[i].draft;
    assert PartitionFor(draft, hash, shardCount) == o.partition;
    PartitionMeans(draft, hash, shardCount);
    PruningLosesNothing(start, end, draft.timestampMs);
    ReaderFindsObject(o, runId, dateText, start, end, draft.timestampMs);
    if ListedDraft(draft) {
      ListedDraftIsListed(draft, hash, shardCount);
      ListedIsPlain(o.partition);
      ListingCoversIff(o, runId, dateText, o.partition.part);
    }
  }

  /** Names the S3 reader lists. */
  predicate ListedDraft(draft: Draft)
  {
    && draft.venue in {"upbit", "binance"}
    && (draft.RawMarketEvent? ==>
          draft.eventType in {"trade", "book_ticker", "depth_delta", "depth_snapshot", "ticker",
                              "funding_rate_snapshot", "open_interest_snapshot"})
    && (draft.GapAlert? ==> draft.gapType in {"depth_update_id_gap", "ordering_violation", "upbit_error"})
  }

  lemma ListedDraftIsListed(draft: Draft, hash: string -> nat, shardCount: nat)
    requires shardCount > 0 && ListedDraft(draft)
    ensures Listed(PartitionFor(draft, hash, shardCount))
  {
  }

  lemma ListedIsPlain(p: Partition)
    requires Listed(p)
    ensures PlainNames(p)
  {
    hide PlainNames;
    ProgramNamesArePlain(p);
  }
}
