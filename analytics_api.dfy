/** The management API handler: one request against the store of links,
    answered with a status code and either a message or a list of records.
    Each branch is first stated as a pure function from the old store to an
    `Outcome` (status, message, new store); the class `LinkStore` holds the
    store as a mutable map and its methods carry out the same steps in place. */
module AnalyticsApi {
  import opened Wrappers
  import opened Seqs
  import opened Sorting
  import opened Links

  /** A soft-deleted record may be restored for one hour after deletion. */
  const RecoveryWindow: int := 60 * 60 * 1000

  /** The recent-visits query returns at most this many records. */
  const RecentLimit: nat := 10

  const IdRequired := "URL ID is required"
  const NotFound := "URL not found"
  const AlreadyDeleted := "URL has already been deleted"
  const Deleted := "URL deleted successfully"
  const PermanentlyDeleted := "URL permanently deleted"
  const ShortenUrlRequired := "Shorten URL is required"
  const ShortenUrlNotString := "Shorten URL must be a string"
  const ShortenUrlNotUnique := "Shortened URL must be unique"
  const Updated := "URL updated successfully"
  const RestoredMessage := "URL restored successfully"
  const NotRestorable := "URL is past the recovery window or not marked as deleted"
  const MethodNotAllowed := "Method Not Allowed"

  /** A JSON value from a request body, as far as the checks on it can tell. */
  datatype JsValue = Undefined | Null | Bool(b: bool) | Number(n: int) | Str(s: string) | Object

  /** JavaScript truthiness: `undefined`, `null`, `false`, `0` and `""` are the
      falsy values, and an object is always truthy. */
  predicate Truthy(v: JsValue): (r: bool)
    ensures !r <==> v in {Undefined, Null, Bool(false), Number(0), Str("")}
  {
    match v
    case Undefined => false
    case Null => false
    case Bool(b) => b
    case Number(n) => n != 0
    case Str(s) => s != ""
    case Object => true
  }

  /** The body of an edit. The dates arrive already parsed; `None` stands for
      an absent or falsy date. */
  datatype EditBody = EditBody(shortenUrl: JsValue, expirationDate: Option<Millis>, scheduledDate: Option<Millis>)

  datatype Request = Request(verb: string, action: Option<string>, id: Option<string>, body: EditBody)

  datatype Body = Message(text: string) | Records(links: seq<Link>)

  datatype Response = Response(status: int, body: Body)

  datatype Outcome = Outcome(status: int, message: string, store: map<Id, Link>)

  function Reply(o: Outcome): Response {
    Response(o.status, Message(o.message))
  }

  /** The query's `id` is present and truthy. */
  predicate HasId(id: Option<string>) {
    id.Some? && id.value != ""
  }

  /** A new short code passes both checks of the edit: truthy, and a string. */
  predicate IsCode(v: JsValue) {
    Truthy(v) && v.Str?
  }

  function SoftDeleted(l: Link, now: Millis): Link {
    l.(isDeleted := true, deletedAt := Some(now))
  }

  function Restored(l: Link): Link {
    l.(isDeleted := false, deletedAt := None)
  }

  function Edited(l: Link, code: string, expirationDate: Option<Millis>, scheduledDate: Option<Millis>): Link {
    l.(shortenUrl := code, expirationDate := expirationDate, scheduledDate := scheduledDate)
  }

  /** The record was soft-deleted at most `RecoveryWindow` milliseconds ago. */
  predicate InRecoveryWindow(l: Link, now: Millis) {
    l.deletedAt.Some? && now - l.deletedAt.value <= RecoveryWindow
  }

  /** Some record other than `id`, deleted or not, already has short code `code`. */
  predicate TakenByOther(m: map<Id, Link>, id: Id, code: string) {
    exists k :: k in m && k != id && m[k].shortenUrl == code
  }

  // ---------------------------------------------------------------------------
  // The branches as functions of the store
  // ---------------------------------------------------------------------------

  /** DELETE: a soft delete unless `action` is "permanent". */
  function DeleteResult(m: map<Id, Link>, id: Option<string>, action: Option<string>, now: Millis): (r: Outcome)
    ensures r.status == 200 || r.status == 400 || r.status == 404
    ensures r.status == 200 <==>
      HasId(id) && id.value in m && (action == Some("permanent") || !m[id.value].isDeleted)
    ensures r.status != 200 ==> r.store == m
    ensures !HasId(id) ==> r.status == 400 && r.message == IdRequired
    ensures HasId(id) && id.value !in m ==> r.status == 404 && r.message == NotFound
    ensures HasId(id) && id.value in m && action != Some("permanent") && m[id.value].isDeleted ==>
      r.status == 400 && r.message == AlreadyDeleted
    ensures r.status == 200 ==> r.message == if action == Some("permanent") then PermanentlyDeleted else Deleted
    ensures r.status == 200 && action == Some("permanent") ==>
      && r.store.Keys == m.Keys - {id.value}
      && (forall k :: k in r.store ==> r.store[k] == m[k])
    ensures r.status == 200 && action != Some("permanent") ==>
      && r.store.Keys == m.Keys
      && (forall k :: k in m && k != id.value ==> r.store[k] == m[k])
      && r.store[id.value].isDeleted && r.store[id.value].deletedAt == Some(now)
      && r.store[id.value].(isDeleted := false, deletedAt := m[id.value].deletedAt) == m[id.value]
    ensures StoreInvariant(m) ==> StoreInvariant(r.store)
  {
    if !HasId(id) then Outcome(400, IdRequired, m)
    else if id.value !in m then Outcome(404, NotFound, m)
    else if action != Some("permanent") then
      if m[id.value].isDeleted then Outcome(400, AlreadyDeleted, m)
      else Outcome(200, Deleted, m[id.value := SoftDeleted(m[id.value], now)])
    else Outcome(200, PermanentlyDeleted, m - {id.value})
  }

  /** PUT: overwrite the short code and the two dates of one record. */
  function EditResult(m: map<Id, Link>, id: Option<string>, body: EditBody): (r: Outcome)
    ensures r.status == 200 || r.status == 400 || r.status == 404
    ensures r.status != 200 ==> r.store == m
    ensures !HasId(id) ==> r.status == 400 && r.message == IdRequired
    ensures HasId(id) && !Truthy(body.shortenUrl) ==> r.status == 400 && r.message == ShortenUrlRequired
    ensures HasId(id) && Truthy(body.shortenUrl) && !body.shortenUrl.Str? ==>
      r.status == 400 && r.message == ShortenUrlNotString
    ensures HasId(id) && IsCode(body.shortenUrl) && TakenByOther(m, id.value, body.shortenUrl.s) ==>
      r.status == 400 && r.message == ShortenUrlNotUnique
    ensures r.status == 404 <==>
      HasId(id) && IsCode(body.shortenUrl) && !TakenByOther(m, id.value, body.shortenUrl.s) && id.value !in m
    ensures r.status == 200 <==>
      HasId(id) && IsCode(body.shortenUrl) && !TakenByOther(m, id.value, body.shortenUrl.s) && id.value in m
    ensures r.status == 404 ==> r.message == NotFound
    ensures r.status == 200 ==> r.message == Updated
    ensures r.status == 200 ==>
      && r.store.Keys == m.Keys
      && (forall k :: k in m && k != id.value ==> r.store[k] == m[k])
      && r.store[id.value].shortenUrl == body.shortenUrl.s
      && r.store[id.value].expirationDate == body.expirationDate
      && r.store[id.value].scheduledDate == body.scheduledDate
      && r.store[id.value].(shortenUrl := m[id.value].shortenUrl,
                            expirationDate := m[id.value].expirationDate,
                            scheduledDate := m[id.value].scheduledDate) == m[id.value]
    ensures StoreInvariant(m) ==> StoreInvariant(r.store)
  {
    if !HasId(id) then Outcome(400, IdRequired, m)
    else if !Truthy(body.shortenUrl) then Outcome(400, ShortenUrlRequired, m)
    else if !body.shortenUrl.Str? then Outcome(400, ShortenUrlNotString, m)
    else if TakenByOther(m, id.value, body.shortenUrl.s) then Outcome(400, ShortenUrlNotUnique, m)
    else if id.value !in m then Outcome(404, NotFound, m)
    else Outcome(200, Updated,
                 m[id.value := Edited(m[id.value], body.shortenUrl.s, body.expirationDate, body.scheduledDate)])
  }

  /** POST with action "restore": undo a soft delete within the recovery window. */
  function RestoreResult(m: map<Id, Link>, id: Option<string>, now: Millis): (r: Outcome)
    ensures r.status == 200 || r.status == 400 || r.status == 404
    ensures r.status != 200 ==> r.store == m
    ensures !HasId(id) ==> r.status == 400 && r.message == IdRequired
    ensures HasId(id) && id.value !in m ==> r.status == 404 && r.message == NotFound
    ensures r.status == 200 <==> HasId(id) && id.value in m && InRecoveryWindow(m[id.value], now)
    ensures r.status == 200 ==> r.message == RestoredMessage
    ensures HasId(id) && id.value in m && !InRecoveryWindow(m[id.value], now) ==>
      r.status == 400 && r.message == NotRestorable
    ensures r.status == 200 ==>
      && r.store.Keys == m.Keys
      && (forall k :: k in m && k != id.value ==> r.store[k] == m[k])
      && !r.store[id.value].isDeleted && r.store[id.value].deletedAt == None
      && r.store[id.value].(isDeleted := m[id.value].isDeleted, deletedAt := m[id.value].deletedAt) == m[id.value]
    ensures StoreInvariant(m) ==> StoreInvariant(r.store)
  {
    if !HasId(id) then Outcome(400, IdRequired, m)
    else if id.value !in m then Outcome(404, NotFound, m)
    else if InRecoveryWindow(m[id.value], now) then
      Outcome(200, RestoredMessage, m[id.value := Restored(m[id.value])])
    else Outcome(400, NotRestorable, m)
  }

  // ---------------------------------------------------------------------------
  // The two queries, stated as properties of their answers
  // ---------------------------------------------------------------------------

  /** `r` lists every record without the sentinel field exactly once. */
  ghost predicate IsListing(m: map<Id, Link>, r: seq<Link>) {
    forall l :: multiset(r)[l] == if l in m.Values && l.q.None? then 1 else 0
  }

  /** `r` holds min(10, |m|) distinct records of `m`, latest visit first, and
      no record left out was visited later than one kept. */
  ghost predicate IsRecentTen(m: map<Id, Link>, r: seq<Link>) {
    && |r| == Min(RecentLimit, |m|)
    && (forall l :: multiset(r)[l] <= if l in m.Values then 1 else 0)
    && Ordered(r, LastVisit, true)
    && (forall l, t :: l in m.Values && l !in r && t in r ==> LastVisit(l) <= LastVisit(t))
  }

  /** The first ten of all records sorted by latest visit answer the query. */
  lemma TopOfSortedIsRecentTen(m: map<Id, Link>, sorted: seq<Link>)
    requires |sorted| == |m|
    requires forall l :: multiset(sorted)[l] == if l in m.Values then 1 else 0
    requires Ordered(sorted, LastVisit, true)
    ensures IsRecentTen(m, sorted[..Min(RecentLimit, |sorted|)])
  {
    var n := Min(RecentLimit, |sorted|);
    var r := sorted[..n];
    assert sorted == r + sorted[n..];
    assert multiset(sorted) == multiset(r) + multiset(sorted[n..]);
    forall l, t | l in m.Values && l !in r && t in r
      ensures LastVisit(l) <= LastVisit(t)
    {
      assert l in multiset(sorted);
      assert l in sorted[n..];
      PrefixDominates(sorted, LastVisit, n, l, t);
    }
  }

  // ---------------------------------------------------------------------------
  // Routing
  // ---------------------------------------------------------------------------

  datatype Route = RecentTenRoute | ListRoute | DeleteRoute | EditRoute | RestoreRoute | NotAllowed

  /** Which branch of the handler a request takes; the tests run in this order. */
  function RouteOf(req: Request): (r: Route)
    ensures r == RecentTenRoute <==> req.verb == "GET" && req.action == Some("recent-ten")
    ensures r == ListRoute <==> req.verb == "GET" && req.action != Some("recent-ten")
    ensures r == DeleteRoute <==> req.verb == "DELETE"
    ensures r == EditRoute <==> req.verb == "PUT"
    ensures r == RestoreRoute <==> req.verb == "POST" && req.action == Some("restore")
    ensures r == NotAllowed <==>
      && req.verb != "GET" && req.verb != "DELETE" && req.verb != "PUT"
      && !(req.verb == "POST" && req.action == Some("restore"))
  {
    if req.verb == "GET" && req.action == Some("recent-ten") then RecentTenRoute
    else if req.verb == "GET" then ListRoute
    else if req.verb == "DELETE" then DeleteRoute
    else if req.verb == "PUT" then EditRoute
    else if req.verb == "POST" && req.action == Some("restore") then RestoreRoute
    else NotAllowed
  }

  // ---------------------------------------------------------------------------
  // The store, updated in place
  // ---------------------------------------------------------------------------

  class LinkStore {
    var links: map<Id, Link>

    ghost predicate Valid()
      reads this
    {
      StoreInvariant(links)
    }

    constructor (initial: map<Id, Link>)
      requires StoreInvariant(initial)
      ensures Valid() && links == initial
    {
      links := initial;
    }

    /** Every stored record, each exactly once, in no particular order. */
    method FindAll() returns (all: seq<Link>)
      requires Valid()
      ensures |all| == |links|
      ensures forall l :: multiset(all)[l] == if l in links.Values then 1 else 0
    {
      forall l | l in links.Values
        ensures l.id in links && links[l.id] == l
      {
        StoredUnderOwnId(links, l);
      }
      all := [];
      var remaining := links.Keys;
      while remaining != {}
        invariant remaining <= links.Keys
        invariant |all| + |remaining| == |links.Keys|
        invariant forall l :: multiset(all)[l] == if l in links.Values && l.id !in remaining then 1 else 0
        decreases remaining
      {
        var k :| k in remaining;
        all := all + [links[k]];
        remaining := remaining - {k};
      }
    }

    /** GET: every record that lacks the sentinel field. */
    method ListAll() returns (r: seq<Link>)
      requires Valid()
      ensures IsListing(links, r)
    {
      var all := FindAll();
      r := Filter(all, (l: Link) => l.q.None?);
    }

    /** GET with action "recent-ten": sort by latest visit, descending, and keep ten. */
    method RecentTen() returns (r: seq<Link>)
      requires Valid()
      ensures IsRecentTen(links, r)
    {
      var all := FindAll();
      var sorted := Sort(all, LastVisit, true);
      r := sorted[..Min(RecentLimit, |sorted|)];
      TopOfSortedIsRecentTen(links, sorted);
    }

    /** `findOne({ shortenUrl: code })`: some record with that short code, if any. */
    method FindByShortenUrl(code: string) returns (found: Option<Link>)
      ensures found.Some? ==> found.value in links.Values && found.value.shortenUrl == code
      ensures found.None? ==> forall k :: k in links ==> links[k].shortenUrl != code
    {
      var remaining := links.Keys;
      while remaining != {}
        invariant remaining <= links.Keys
        invariant forall k :: k in links && k !in remaining ==> links[k].shortenUrl != code
        decreases remaining
      {
        var k :| k in remaining;
        if links[k].shortenUrl == code {
          return Some(links[k]);
        }
        remaining := remaining - {k};
      }
      return None;
    }

    method Delete(id: Option<string>, action: Option<string>, now: Millis) returns (resp: Response)
      requires Valid()
      modifies this
      ensures Valid()
      ensures var o := DeleteResult(old(links), id, action, now); resp == Reply(o) && links == o.store
    {
      if !HasId(id) {
        return Response(400, Message(IdRequired));
      }
      var key := id.value;
      if key !in links {
        return Response(404, Message(NotFound));
      }
      var url := links[key];
      if action != Some("permanent") {
        if url.isDeleted {
          return Response(400, Message(AlreadyDeleted));
        }
        links := links[key := SoftDeleted(url, now)];
        return Response(200, Message(Deleted));
      }
      links := links - {key};
      return Response(200, Message(PermanentlyDeleted));
    }

    method Edit(id: Option<string>, body: EditBody) returns (resp: Response)
      requires Valid()
      modifies this
      ensures Valid()
      ensures var o := EditResult(old(links), id, body); resp == Reply(o) && links == o.store
    {
      if !HasId(id) {
        return Response(400, Message(IdRequired));
      }
      var key := id.value;
      var code := body.shortenUrl;
      if !Truthy(code) {
        return Response(400, Message(ShortenUrlRequired));
      }
      if !code.Str? {
        return Response(400, Message(ShortenUrlNotString));
      }
      var existing := FindByShortenUrl(code.s);
      if existing.Some? {
        StoredUnderOwnId(links, existing.value);
      }
      if existing.Some? && existing.value.id != key {
        return Response(400, Message(ShortenUrlNotUnique));
      }
      if key !in links {
        return Response(404, Message(NotFound));
      }
      links := links[key := Edited(links[key], code.s, body.expirationDate, body.scheduledDate)];
      return Response(200, Message(Updated));
    }

    method Restore(id: Option<string>, now: Millis) returns (resp: Response)
      requires Valid()
      modifies this
      ensures Valid()
      ensures var o := RestoreResult(old(links), id, now); resp == Reply(o) && links == o.store
    {
      if !HasId(id) {
        return Response(400, Message(IdRequired));
      }
      var key := id.value;
      if key !in links {
        return Response(404, Message(NotFound));
      }
      var url := links[key];
      if url.deletedAt.Some? && now - url.deletedAt.value <= RecoveryWindow {
        links := links[key := Restored(url)];
        return Response(200, Message(RestoredMessage));
      }
      return Response(400, Message(NotRestorable));
    }

    /** The handler: dispatch on method and action; anything else is 405. */
    method Handle(req: Request, now: Millis) returns (resp: Response)
      requires Valid()
      modifies this
      ensures Valid()
      ensures RouteOf(req) == RecentTenRoute ==>
        links == old(links) && resp.status == 200 && resp.body.Records? && IsRecentTen(links, resp.body.links)
      ensures RouteOf(req) == ListRoute ==>
        links == old(links) && resp.status == 200 && resp.body.Records? && IsListing(links, resp.body.links)
      ensures RouteOf(req) == DeleteRoute ==>
        var o := DeleteResult(old(links), req.id, req.action, now); resp == Reply(o) && links == o.store
      ensures RouteOf(req) == EditRoute ==>
        var o := EditResult(old(links), req.id, req.body); resp == Reply(o) && links == o.store
      ensures RouteOf(req) == RestoreRoute ==>
        var o := RestoreResult(old(links), req.id, now); resp == Reply(o) && links == o.store
      ensures RouteOf(req) == NotAllowed ==>
        links == old(links) && resp == Response(405, Message(MethodNotAllowed))
    {
      match RouteOf(req)
      case RecentTenRoute =>
        var r := RecentTen();
        resp := Response(200, Records(r));
      case ListRoute =>
        var r := ListAll();
        resp := Response(200, Records(r));
      case DeleteRoute =>
        resp := Delete(req.id, req.action, now);
      case EditRoute =>
        resp := Edit(req.id, req.body);
      case RestoreRoute =>
        resp := Restore(req.id, now);
      case NotAllowed =>
        resp := Response(405, Message(MethodNotAllowed));
    }
  }
}
