/** Properties of the link lifecycle that relate several requests:
    soft delete and restore are inverse within the recovery window, a
    permanently deleted id is gone for every later request, and an edit can
    be undone by editing back. */
module Lifecycle {
  import opened Wrappers
  import opened Links
  import opened AnalyticsApi

  /** Restoring within the window undoes a soft delete exactly. */
  lemma RestoreUndoesSoftDelete(m: map<Id, Link>, id: Id, action: Option<string>, deletedAt: Millis, now: Millis)
    requires StoreInvariant(m)
    requires id != "" && id in m && !m[id].isDeleted
    requires action != Some("permanent")
    requires now - deletedAt <= RecoveryWindow
    ensures DeleteResult(m, Some(id), action, deletedAt).status == 200
    ensures RestoreResult(DeleteResult(m, Some(id), action, deletedAt).store, Some(id), now)
            == Outcome(200, RestoredMessage, m)
  {
  }

  /** Past the window, a soft-deleted record can no longer be restored. */
  lemma RestoreRefusedAfterWindow(m: map<Id, Link>, id: Id, action: Option<string>, deletedAt: Millis, now: Millis)
    requires id != "" && id in m && !m[id].isDeleted
    requires action != Some("permanent")
    requires now - deletedAt > RecoveryWindow
    ensures var d := DeleteResult(m, Some(id), action, deletedAt);
      && d.status == 200
      && RestoreResult(d.store, Some(id), now) == Outcome(400, NotRestorable, d.store)
  {
  }

  /** A record that was never soft-deleted cannot be restored. */
  lemma RestoreRefusedWhenNotDeleted(m: map<Id, Link>, id: Id, now: Millis)
    requires StoreInvariant(m)
    requires id != "" && id in m && !m[id].isDeleted
    ensures RestoreResult(m, Some(id), now) == Outcome(400, NotRestorable, m)
  {
  }

  /** The boundary of the window is inclusive: one hour after deletion a
      record is still restorable, one millisecond later it is not; at 59
      minutes it is, at 61 minutes it is not. */
  lemma RecoveryWindowBoundary(l: Link, at: Millis)
    requires l.deletedAt == Some(at)
    ensures InRecoveryWindow(l, at + 3600000)
    ensures !InRecoveryWindow(l, at + 3600001)
    ensures InRecoveryWindow(l, at + 59 * 60 * 1000)
    ensures !InRecoveryWindow(l, at + 61 * 60 * 1000)
  {
  }

  /** A second soft delete of the same record is refused and changes nothing. */
  lemma SoftDeleteTwiceRefused(m: map<Id, Link>, id: Id, first: Option<string>, second: Option<string>,
                               t1: Millis, t2: Millis)
    requires first != Some("permanent") && second != Some("permanent")
    requires DeleteResult(m, Some(id), first, t1).status == 200
    ensures var d := DeleteResult(m, Some(id), first, t1).store;
      DeleteResult(d, Some(id), second, t2) == Outcome(400, AlreadyDeleted, d)
  {
  }

  /** Permanent delete works from either delete state, and afterwards every
      request about that id finds nothing. */
  lemma PermanentDeleteIsFinal(m: map<Id, Link>, id: Id, t: Millis, action: Option<string>,
                               now: Millis, body: EditBody)
    requires id != "" && id in m
    ensures var p := DeleteResult(m, Some(id), Some("permanent"), t);
      && p.status == 200
      && id !in p.store
      && DeleteResult(p.store, Some(id), action, now).status == 404
      && RestoreResult(p.store, Some(id), now).status == 404
      && EditResult(p.store, Some(id), body).status != 200
  {
  }

  /** Re-saving a record's own short code is not a uniqueness violation. */
  lemma EditOwnCodeAllowed(m: map<Id, Link>, id: Id, expirationDate: Option<Millis>, scheduledDate: Option<Millis>)
    requires StoreInvariant(m)
    requires id != "" && id in m && m[id].shortenUrl != ""
    ensures EditResult(m, Some(id), EditBody(Str(m[id].shortenUrl), expirationDate, scheduledDate)).status == 200
  {
  }

  /** A short code owned by another record, deleted or not, is refused. */
  lemma EditOtherCodeRefused(m: map<Id, Link>, id: Id, other: Id, body: EditBody)
    requires id != "" && other in m && other != id
    requires body.shortenUrl == Str(m[other].shortenUrl) && m[other].shortenUrl != ""
    ensures EditResult(m, Some(id), body) == Outcome(400, ShortenUrlNotUnique, m)
  {
  }

  /** Editing a record back to its previous short code and dates undoes an edit. */
  lemma EditUndo(m: map<Id, Link>, id: Id, body: EditBody)
    requires StoreInvariant(m)
    requires id in m && m[id].shortenUrl != ""
    requires EditResult(m, Some(id), body).status == 200
    ensures var e := EditResult(m, Some(id), body).store;
      EditResult(e, Some(id), EditBody(Str(m[id].shortenUrl), m[id].expirationDate, m[id].scheduledDate))
      == Outcome(200, Updated, m)
  {
  }
}
