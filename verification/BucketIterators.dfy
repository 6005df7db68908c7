/** Reading and writing bucket files record by record (src/bucket/BucketInputIterator.cpp,
    src/bucket/BucketOutputIterator.cpp). A file is the sequence of its records. */
module BucketIterators {
  import opened LedgerCmp
  import opened Wrappers
  import opened Buckets

  datatype ReadError = MultipleMeta | MetaAfterOtherEntries | UnsupportedEntry

  /** A record the iterator rejects where it stands: a second metadata record, one after other entries,
      or a creation in a bucket whose metadata says protocol 10 or earlier. */
  function RecordError(file: seq<BucketEntry>, i: nat): (r: Option<ReadError>)
    requires i < |file|
  {
    if file[i].Meta? then
      if i == 0 then None
      else if file[0].Meta? then Some(MultipleMeta)
      else Some(MetaAfterOtherEntries)
    else if file[0].Meta? && file[0].version < FIRST_PROTOCOL_SUPPORTING_INITENTRY_AND_METAENTRY
      && file[i].change.Init? then
      Some(UnsupportedEntry)
    else None
  }

  /** The position of the first entry: after the leading metadata record, if any. */
  function FirstEntry(file: seq<BucketEntry>): (r: nat)
    ensures r <= |file|
  {
    if file != [] && file[0].Meta? then 1 else 0
  }

  class BucketInputIterator {
    const file: seq<BucketEntry>
    var pos: nat
    var entry: Option<Change>
    var seenMetadata: bool
    var seenOtherEntries: bool
    var version: nat

    /** The iterator stands on record pos-1, or behind the last one. */
    ghost predicate Valid()
      reads this
    {
      && FirstEntry(file) <= pos <= |file|
      && seenMetadata == (FirstEntry(file) == 1)
      && (entry.Some? ==> FirstEntry(file) < pos && file[pos - 1] == Entry(entry.value))
      && (entry.None? ==> pos == |file|)
      && (FirstEntry(file) < pos ==> seenOtherEntries)
      && version == if seenMetadata then file[0].version else 0
    }

    /** The index of the record the iterator stands on. */
    ghost function Index(): (r: nat)
      requires Valid()
      reads this
      ensures FirstEntry(file) <= r <= |file|
    {
      if entry.Some? then pos - 1 else |file|
    }

    /** Opening a file fails exactly if one of the records read so far is malformed. */
    constructor (file: seq<BucketEntry>)
      ensures this.file == file
      ensures pos == 0 && entry.None? && !seenMetadata && !seenOtherEntries && version == 0
    {
      this.file := file;
      pos, entry, seenMetadata, seenOtherEntries, version := 0, None, false, false, 0;
    }

    /** The state before the first record is read, or a valid one. */
    ghost predicate Ready()
      reads this
    {
      Valid() || (pos == 0 && entry.None? && !seenMetadata && !seenOtherEntries && version == 0)
                 || (pos == 1 && FirstEntry(file) == 1 && entry.None? && seenMetadata && !seenOtherEntries
                     && version == file[0].version)
    }

    /** Reads the next entry: fails exactly on a malformed record. */
    method LoadEntry() returns (err: Option<ReadError>)
      requires Ready()
      modifies this
      ensures err.None? ==> Valid()
      ensures var at := if old(pos) == 0 then FirstEntry(file) else old(pos);
              if at < |file| then
                && err == RecordError(file, at)
                && (err.None? ==> entry.Some? && pos == at + 1)
              else err.None? && entry.None? && pos == |file|
      decreases |file| - pos
    {
      if pos == |file| {
        entry := None;
        return None;
      }
      var record := file[pos];
      pos := pos + 1;
      match record
      case Meta(v) =>
        if seenMetadata { return Some(MultipleMeta); }
        if seenOtherEntries { return Some(MetaAfterOtherEntries); }
        version := v;
        seenMetadata := true;
        entry := None;
        err := LoadEntry();
      case Entry(change) =>
        seenOtherEntries := true;
        entry := Some(change);
        if seenMetadata && version < FIRST_PROTOCOL_SUPPORTING_INITENTRY_AND_METAENTRY && change.Init? {
          return Some(UnsupportedEntry);
        }
        err := None;
    }
  }

  // ----- iterating over the file of a bucket

  /** The iterator reads the file of bucket `b` and stands on its entry `n`, or behind the last one. */
  ghost predicate Delivers(it: BucketInputIterator, b: Bucket, n: nat)
    reads it
  {
    && WellFormed(b)
    && it.file == Records(b)
    && it.Valid()
    && n <= |b.changes|
    && it.Index() == FirstEntry(it.file) + n
    && it.version == b.version
    && it.entry == if n < |b.changes| then Some(b.changes[n]) else None
  }

  lemma RecordsOfBucket(b: Bucket)
    requires WellFormed(b)
    ensures |Records(b)| == FirstEntry(Records(b)) + |b.changes|
    ensures forall i :: 0 <= i < |Records(b)| ==> RecordError(Records(b), i).None?
    ensures forall i :: 0 <= i < |b.changes| ==> Records(b)[FirstEntry(Records(b)) + i] == Entry(b.changes[i])
    ensures FirstEntry(Records(b)) == 1 ==> Records(b)[0] == Meta(b.version)
    ensures FirstEntry(Records(b)) == 0 ==> b.version == 0
  {
  }

  lemma RecordAfter(b: Bucket, n: nat)
    requires WellFormed(b) && n < |b.changes|
    ensures |Records(b)| == FirstEntry(Records(b)) + |b.changes|
    ensures var i := FirstEntry(Records(b)) + n + 1;
            i < |Records(b)| ==> RecordError(Records(b), i).None? && Records(b)[i] == Entry(b.changes[n + 1])
  {
    RecordsOfBucket(b);
  }

  /** A bucket's file opens without error and delivers the version and all entries of the bucket. */
  method Open(b: Bucket) returns (it: BucketInputIterator)
    requires WellFormed(b)
    ensures fresh(it) && Delivers(it, b, 0)
  {
    RecordsOfBucket(b);
    it := new BucketInputIterator(Records(b));
    var err := it.LoadEntry();
    assert err.None?;
  }

  /** operator++. */
  method Advance(it: BucketInputIterator, ghost b: Bucket, ghost n: nat)
    requires n < |b.changes| && Delivers(it, b, n)
    modifies it
    ensures Delivers(it, b, n + 1)
  {
    RecordAfter(b, n);
    var err := it.LoadEntry();
    assert err.None?;
  }

  // ----- writing

  predicate LegalRecord(version: nat, e: BucketEntry) {
    FIRST_PROTOCOL_SUPPORTING_INITENTRY_AND_METAENTRY <= version || (e.Entry? && !e.change.Init?)
  }

  class BucketOutputIterator {
    var out: seq<BucketEntry>
    var buf: Option<BucketEntry>
    const keepDead: bool
    const version: nat
    var putMeta: bool
    var objectsPut: nat

    /** What has been put: the records written and the buffered one. */
    ghost function Contents(): (r: seq<BucketEntry>)
      reads this
    {
      out + if buf.Some? then [buf.value] else []
    }

    ghost predicate Valid()
      reads this
    {
      && objectsPut == |out|
      && (buf.None? ==> out == [])
      && (putMeta ==> FIRST_PROTOCOL_SUPPORTING_INITENTRY_AND_METAENTRY <= version)
    }

    /** Writes the metadata record first, from protocol 11 on. */
    constructor (keepDead: bool, version: nat)
      ensures Valid() && this.keepDead == keepDead && this.version == version
      ensures putMeta <==> FIRST_PROTOCOL_SUPPORTING_INITENTRY_AND_METAENTRY <= version
      ensures Contents() == if putMeta then [Meta(version)] else []
      ensures buf == if putMeta then Some(Meta(version)) else None
    {
      this.keepDead, this.version := keepDead, version;
      out, buf, putMeta, objectsPut := [], None, false, 0;
      new;
      if FIRST_PROTOCOL_SUPPORTING_INITENTRY_AND_METAENTRY <= version {
        var ok := Put(Meta(version));
        assert ok;
        putMeta := true;
      }
    }

    /** The records that are dropped: tombstones, unless they are kept. */
    predicate Drops(e: BucketEntry) {
      !keepDead && e.Entry? && e.change.Dead?
    }

    /** Appends a record, replacing the last one if it has the same identity. A record that is illegal for the version
        and a second metadata record are refused; of the others, those that are not dropped must come in order. */
    method Put(e: BucketEntry) returns (ok: bool)
      requires Valid()
      requires buf.Some? && !Drops(e) && LegalRecord(version, e) && !(e.Meta? && putMeta) ==> !EntryLess(e, buf.value)
      modifies this
      ensures Valid() && putMeta == old(putMeta)
      ensures ok == (LegalRecord(version, e) && !(e.Meta? && putMeta))
      ensures !ok || Drops(e) ==> Contents() == old(Contents()) && buf == old(buf)
      ensures ok && !Drops(e) ==>
                && buf == Some(e)
                && Contents() == if old(buf).Some? && !EntryLess(old(buf).value, e)
                                 then old(Contents())[..|old(Contents())| - 1] + [e]
                                 else old(Contents()) + [e]
    {
      if version < FIRST_PROTOCOL_SUPPORTING_INITENTRY_AND_METAENTRY && (e.Meta? || e.change.Init?) {
        return false;
      }
      if e.Meta? && putMeta {
        return false;
      }
      if Drops(e) {
        return true;
      }
      if buf.Some? {
        if EntryLess(buf.value, e) {
          out := out + [buf.value];
          objectsPut := objectsPut + 1;
        }
      }
      buf := Some(e);
      return true;
    }

    /** Flushes the buffer; no file is kept for a bucket without records. */
    method GetFile() returns (file: seq<BucketEntry>)
      requires Valid()
      modifies this
      ensures file == old(Contents()) == out
    {
      if buf.Some? {
        out := out + [buf.value];
        objectsPut := objectsPut + 1;
        buf := None;
      }
      return if objectsPut == 0 then [] else out;
    }
  }
}
