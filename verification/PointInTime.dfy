/** Restoring at a point in time: the search for a backup and the restoring of its files composed. */
module PointInTime {
  import opened ArchiveReading
  import opened Bytes
  import opened Common
  import opened Keystream
  import opened Labels
  import opened RetentionStore
  import opened Storage
  import opened StorageProtocol
  import opened Streams
  import BackupRequests
  import RoundTrip

  /** The bucket began empty, and what was last put under each name is a backup of what the requests
      under that name stored. */
  ghost predicate HoldsBackups(prims: Primitives, pass: seq<byte>, bucket: Bucket,
                               made: map<string, seq<BackupRequests.Request>>)
    reads bucket
  {
    && bucket.run.worlds != [] && bucket.run.worlds[0].objects == map[]
    && forall name :: LastPut(bucket.run.steps, name).Some? ==>
      name in made
      && RoundTrip.IsBackup(prims, pass, LastPut(bucket.run.steps, name).value, BackupRequests.Run(made[name]))
  }

  /** Every object in such a bucket is the backup that was made under its name. */
  lemma ObjectIsBackup(prims: Primitives, pass: seq<byte>, bucket: Bucket,
                       made: map<string, seq<BackupRequests.Request>>, name: string)
    requires bucket.Valid() && HoldsBackups(prims, pass, bucket, made) && name in bucket.objects
    ensures name in made
    ensures RoundTrip.IsBackup(prims, pass, bucket.objects[name], BackupRequests.Run(made[name]))
  {
    ContentIsLastPut(bucket.tf, bucket.cfg, bucket.run, name, |bucket.run.worlds| - 1);
    assert bucket.run.steps[..|bucket.run.worlds| - 1] == bucket.run.steps;
  }

  /** The backup answers the search and is there. */
  ghost predicate IsAnswer(s: Storage, pit: Time, backup: string)
    reads s, s.bucket, s.labels.store
  {
    backup != "" && IsClosest(s.labels.store.tf, s.labels.store.Entries, pit, backup) && backup in s.bucket.objects
  }

  /** Restores a file as of an instant: it is, byte for byte, what the requests of the backup that
      answers the search stored under its name. Nothing comes back only when a call fails, or no label qualifies, or the
      answer's labels have expired, or somebody else deleted its object. */
  method RestoreAt(prims: Primitives, s: Storage, pass: seq<byte>, pit: Time, file: string,
                   ghost made: map<string, seq<BackupRequests.Request>>)
    returns (r: Option<FileRead>)
    requires s.Valid() && HoldsBackups(prims, pass, s.bucket, made)
    ensures r.Some? && !r.value.Unreadable? ==> exists backup ::
      && IsAnswer(s, pit, backup) && backup in made
      && BackupRequests.Stored(BackupRequests.Run(made[backup]), file)
         == if r.value.Content? then Some(r.value.data) else None
    ensures r.Some? && r.value.Unreadable? ==> s.bucket.mayFail
    ensures r.None? ==> s.bucket.mayFail || exists backup ::
      && Answers(s.labels.store.tf, s.labels.store.Entries, pit, backup)
      && (backup == "" || (
        && backup !in s.bucket.objects
        && (Vanish(backup) in s.bucket.run.steps
            || !HasLive(s.bucket.tf, s.bucket.cfg, Some(s.labels.store.Entries), backup, s.bucket.clock))))
  {
    var found := s.DownloadPITBackup(pit);
    if found.None? {
      return None;
    }
    ghost var backup :| backup != "" && IsClosest(s.bucket.tf, s.labels.store.Entries, pit, backup)
      && backup in s.bucket.objects && found.value == s.bucket.objects[backup];
    ObjectIsBackup(prims, pass, s.bucket, made, backup);
    var stored := new StoredObject(found.value, s.bucket.mayFail);
    var content := RoundTrip.RestoreFile(prims, stored, pass, file, made[backup]);
    r := Some(content);
  }
}
