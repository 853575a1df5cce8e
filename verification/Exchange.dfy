/** Corollaries of the upsert's specification: what one device pushes and what
    another reads are the same thing. */
module Exchange {
  import opened Lww
  import opened Tables
  import opened Records
  import opened Invariants
  import opened Pull

  /** After an accepted push every reader of the family sees exactly the bytes,
      timestamps and deletion mark pushed, by the pusher, at the version and sequence
      number of the answer; type and author stay those of the first push. Nothing
      else that any family shows has changed. */
  lemma PushedIsWhatIsPulled(db: Db, p: UpsertParams)
    requires Structured(db) && Decide(db, p).Accepted?
    ensures var after, answer := After(db, p), Decide(db, p);
            && Visible(after, p.recordId, p.familyId)
            && var first := p.recordId !in db.records;
            && RowView(after, p.recordId) == PullRow(
                 p.recordId, if first then p.recordType else db.records[p.recordId].recordType, p.ciphertext,
                 answer.version, answer.seqNo, p.stamps, p.deletedAt,
                 if first then p.userId else db.records[p.recordId].addedBy, p.userId)
            && answer.version == p.parentVersion + 1
            && forall f, r :: r != p.recordId ==>
                 && (Visible(after, r, f) <==> Visible(db, r, f))
                 && (Visible(db, r, f) ==> RowView(after, r) == RowView(db, r))
  {
  }

  /** A push is answered with a conflict exactly when the record is there at another
      version; and the conflict shows the row just as a pull would. */
  lemma ConflictShowsTheRow(db: Db, p: UpsertParams)
    requires Structured(db)
    ensures Decide(db, p).Conflict? <==>
            Visible(db, p.recordId, p.familyId) && db.records[p.recordId].version != p.parentVersion
    ensures Decide(db, p).Conflict? ==>
              var c, seen := Decide(db, p).current, RowView(db, p.recordId);
              && c == Current(seen.ciphertext, seen.version, seen.stamps, seen.addedBy, seen.editedBy, seen.deletedAt)
  {
  }

  /** Pushing again on top of the version a conflict has shown gets through, unless a
      timestamp cannot be read. */
  lemma RebasedPushIsAccepted(db: Db, p: UpsertParams)
    requires Structured(db) && Decide(db, p).Conflict? && p.userId in db.users
    ensures var c := Decide(db, p).current;
            Decide(db, p.(parentVersion := c.version)).Accepted? <==> Mergeable(c.stamps, p.stamps)
  {
  }
}
