/** The link record the analytics API stores and the dashboard lists. */
module Links {
  import opened Wrappers

  /** A document id, compared as its string form. */
  type Id = string

  /** Milliseconds since the epoch, as `Date.getTime()` gives them. */
  type Millis = int

  /** One visit. Visits are stamped with the clock at visit time, so their
      dates are never before the epoch. */
  datatype Visit = Visit(date: nat, userAgent: string, referrer: string, country: string)

  datatype Accesses = Accesses(count: nat, lastAccessed: seq<Visit>)

  /** One stored link. `q` stands for the sentinel field that marks documents
      the management listing leaves out. */
  datatype Link = Link(
    id: Id,
    originalUrl: string,
    shortenUrl: string,
    isActive: bool,
    isDeleted: bool,
    deletedAt: Option<Millis>,
    expirationDate: Option<Millis>,
    scheduledDate: Option<Millis>,
    createdAt: Millis,
    accesses: Accesses,
    q: Option<string>)

  /** The soft-delete flag and its timestamp agree. */
  predicate Consistent(l: Link) {
    l.isDeleted <==> l.deletedAt.Some?
  }

  /** What a store of links keeps true: each record sits under its own id,
      short codes are unique (the collection's unique index), and every
      record's delete state is consistent. */
  ghost predicate StoreInvariant(m: map<Id, Link>) {
    && (forall k :: k in m ==> m[k].id == k && Consistent(m[k]))
    && (forall j, k :: j in m && k in m && j != k ==> m[j].shortenUrl != m[k].shortenUrl)
  }

  /** A stored record is found again under its own id. */
  lemma StoredUnderOwnId(m: map<Id, Link>, l: Link)
    requires StoreInvariant(m)
    requires l in m.Values
    ensures l.id in m && m[l.id] == l
  {
  }

  /** The latest visit date, or -1 when there is none: the key on which a
      descending database sort over the visit array orders records (an array
      sorts by its largest element, an empty one below every date). */
  function LatestVisit(visits: seq<Visit>): (r: int)
    ensures visits == [] ==> r == -1
    ensures forall i :: 0 <= i < |visits| ==> visits[i].date <= r
    ensures visits != [] ==> exists i :: 0 <= i < |visits| && visits[i].date == r
  {
    if visits == [] then -1
    else
      var rest := LatestVisit(visits[1..]);
      assert forall i :: 1 <= i < |visits| ==> visits[i] == visits[1..][i - 1];
      if visits[0].date >= rest then visits[0].date else rest
  }

  function LastVisit(l: Link): int {
    LatestVisit(l.accesses.lastAccessed)
  }
}
