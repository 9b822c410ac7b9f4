/** The dashboard's local list of links: duplicate counting, the sort
    options, the search box, and the list updates after a successful edit
    or delete. */
module Dashboard {
  import opened Wrappers
  import opened Seqs
  import opened Sorting
  import opened Text
  import opened Links
  import AnalyticsApi

  /** A listed link together with how many listed links share its original URL. */
  datatype Item = Item(link: Link, duplicateCount: nat)

  // ---------------------------------------------------------------------------
  // Duplicate counts
  // ---------------------------------------------------------------------------

  /** How many links in `s` point to `url`. */
  function Occurrences(s: seq<Link>, url: string): (r: nat)
    ensures r <= |s|
  {
    if s == [] then 0
    else Occurrences(s[..|s| - 1], url) + (if s[|s| - 1].originalUrl == url then 1 else 0)
  }

  /** A link always counts itself, so a duplicate count is at least one. */
  lemma {:induction false} OccurrencesOfMember(s: seq<Link>, i: nat)
    requires i < |s|
    ensures Occurrences(s, s[i].originalUrl) >= 1
  {
    if i < |s| - 1 {
      assert s[..|s| - 1][i] == s[i];
      OccurrencesOfMember(s[..|s| - 1], i);
    }
  }

  /** Counts per original URL in one pass over the list, then tags every
      link with the count of its URL; length and order are kept. */
  method AddDuplicateCounts(urls: seq<Link>) returns (r: seq<Item>)
    ensures |r| == |urls|
    ensures forall i :: 0 <= i < |urls| ==>
      r[i].link == urls[i] && r[i].duplicateCount == Occurrences(urls, urls[i].originalUrl)
    ensures forall i :: 0 <= i < |r| ==> r[i].duplicateCount >= 1
  {
    var counts: map<string, nat> := map[];
    for i := 0 to |urls|
      invariant forall u :: u in counts ==> counts[u] == Occurrences(urls[..i], u)
      invariant forall u :: Occurrences(urls[..i], u) > 0 ==> u in counts
    {
      assert urls[..i + 1][..i] == urls[..i];
      var u := urls[i].originalUrl;
      counts := counts[u := (if u in counts then counts[u] else 0) + 1];
    }
    assert urls[..|urls|] == urls;
    r := [];
    for i := 0 to |urls|
      invariant |r| == i
      invariant forall j :: 0 <= j < i ==> r[j] == Item(urls[j], Occurrences(urls, urls[j].originalUrl))
      invariant forall j :: 0 <= j < i ==> r[j].duplicateCount >= 1
    {
      var u := urls[i].originalUrl;
      OccurrencesOfMember(urls, i);
      var count := if u in counts then counts[u] else 0;
      r := r + [Item(urls[i], count)];
    }
  }

  // ---------------------------------------------------------------------------
  // Sorting
  // ---------------------------------------------------------------------------

  function CreatedAt(x: Item): int {
    x.link.createdAt
  }

  function Clicks(x: Item): int {
    x.link.accesses.count
  }

  function DuplicateCount(x: Item): int {
    x.duplicateCount
  }

  predicate IsSortOption(option: string) {
    option == "dateAsc" || option == "dateDesc" || option == "clicksAsc" ||
    option == "clicksDesc" || option == "duplicateAsc"
  }

  /** The list in the order the sort selector asks for. */
  function SortUrls(option: string, urls: seq<Item>): (r: seq<Item>)
    ensures option == "dateAsc" ==> multiset(r) == multiset(urls) && Ordered(r, CreatedAt, false)
    ensures option == "dateDesc" ==> multiset(r) == multiset(urls) && Ordered(r, CreatedAt, true)
    ensures option == "clicksAsc" ==> multiset(r) == multiset(urls) && Ordered(r, Clicks, false)
    ensures option == "clicksDesc" ==> multiset(r) == multiset(urls) && Ordered(r, Clicks, true)
    ensures option == "duplicateAsc" ==>
      && (forall x :: multiset(r)[x] == if x.duplicateCount > 1 then multiset(urls)[x] else 0)
      && Ordered(r, DuplicateCount, false)
    ensures !IsSortOption(option) ==> r == urls
  {
    if option == "dateAsc" then Sort(urls, CreatedAt, false)
    else if option == "dateDesc" then Sort(urls, CreatedAt, true)
    else if option == "clicksAsc" then Sort(urls, Clicks, false)
    else if option == "clicksDesc" then Sort(urls, Clicks, true)
    else if option == "duplicateAsc" then
      Sort(Filter(urls, (x: Item) => x.duplicateCount > 1), DuplicateCount, false)
    else urls
  }

  // ---------------------------------------------------------------------------
  // Search
  // ---------------------------------------------------------------------------

  /** The short code or the original URL contains the term, ignoring case. */
  predicate Matches(x: Item, term: string) {
    Contains(Lower(x.link.shortenUrl), Lower(term)) || Contains(Lower(x.link.originalUrl), Lower(term))
  }

  /** The items the search box lets through. */
  function Search(urls: seq<Item>, term: string): (r: seq<Item>)
    ensures forall x :: x in r ==> Matches(x, term)
    ensures forall x :: multiset(r)[x] == if Matches(x, term) then multiset(urls)[x] else 0
  {
    Filter(urls, (x: Item) => Matches(x, term))
  }

  /** The search keeps the items it lets through in their list order. */
  lemma SearchKeepsOrder(a: seq<Item>, b: seq<Item>, term: string)
    ensures Search(a + b, term) == Search(a, term) + Search(b, term)
  {
    FilterConcat(a, b, (x: Item) => Matches(x, term));
  }

  /** An empty search term keeps every item. */
  lemma SearchEmptyTermKeepsAll(urls: seq<Item>)
    ensures Search(urls, "") == urls
  {
    forall i | 0 <= i < |urls|
      ensures Matches(urls[i], "")
    {
      ContainsEmpty(Lower(urls[i].link.shortenUrl));
    }
    FilterKeepsAll(urls, (x: Item) => Matches(x, ""));
  }

  /** What the page shows: the search result in the selected order. Every
      shown item is a listed item that matches the term, shown no more often
      than it is listed. */
  function FilteredUrls(option: string, term: string, urls: seq<Item>): (r: seq<Item>)
    ensures forall x :: multiset(r)[x] <= if Matches(x, term) then multiset(urls)[x] else 0
    ensures IsSortOption(option) && option != "duplicateAsc" ==> |r| == |Search(urls, term)|
  {
    SortUrls(option, Search(urls, term))
  }

  // ---------------------------------------------------------------------------
  // Local updates after a successful edit or delete
  // ---------------------------------------------------------------------------

  /** The fields an edit sends; an absent field is `None`. */
  datatype Patch = Patch(shortenUrl: Option<string>,
                         expirationDate: Option<Option<Millis>>,
                         scheduledDate: Option<Option<Millis>>)

  /** `{...url, ...updatedFields}`: fields present in the patch win. */
  function Merge(x: Item, p: Patch): (r: Item)
    ensures r.duplicateCount == x.duplicateCount
    ensures r.link.shortenUrl == if p.shortenUrl.Some? then p.shortenUrl.value else x.link.shortenUrl
    ensures r.link.expirationDate == if p.expirationDate.Some? then p.expirationDate.value else x.link.expirationDate
    ensures r.link.scheduledDate == if p.scheduledDate.Some? then p.scheduledDate.value else x.link.scheduledDate
    ensures r.link.(shortenUrl := x.link.shortenUrl, expirationDate := x.link.expirationDate,
                    scheduledDate := x.link.scheduledDate) == x.link
  {
    x.(link := x.link.(shortenUrl := p.shortenUrl.GetOr(x.link.shortenUrl),
                       expirationDate := p.expirationDate.GetOr(x.link.expirationDate),
                       scheduledDate := p.scheduledDate.GetOr(x.link.scheduledDate)))
  }

  /** The list after an edit of `id`: that item merged, every other item as it was. */
  function ApplyEdit(urls: seq<Item>, id: Id, p: Patch): (r: seq<Item>)
    ensures |r| == |urls|
    ensures forall i :: 0 <= i < |urls| ==> r[i].link.id == urls[i].link.id
    ensures forall i :: 0 <= i < |urls| && urls[i].link.id != id ==> r[i] == urls[i]
    ensures forall i :: 0 <= i < |urls| && urls[i].link.id == id ==> r[i] == Merge(urls[i], p)
  {
    seq(|urls|, i requires 0 <= i < |urls| => if urls[i].link.id == id then Merge(urls[i], p) else urls[i])
  }

  /** The list after a delete of `id`: every item with that id removed. */
  function RemoveItem(urls: seq<Item>, id: Id): (r: seq<Item>)
    ensures forall x :: x in r ==> x.link.id != id
    ensures forall x: Item :: x.link.id != id ==> multiset(r)[x] == multiset(urls)[x]
    ensures |r| <= |urls|
  {
    Filter(urls, (x: Item) => x.link.id != id)
  }

  /** The remaining items keep their relative order. */
  lemma RemoveItemKeepsOrder(a: seq<Item>, b: seq<Item>, id: Id)
    ensures RemoveItem(a + b, id) == RemoveItem(a, id) + RemoveItem(b, id)
  {
    FilterConcat(a, b, (x: Item) => x.link.id != id);
  }

  /** Removing an id that is not listed changes nothing. */
  lemma RemoveAbsentItem(urls: seq<Item>, id: Id)
    requires forall i :: 0 <= i < |urls| ==> urls[i].link.id != id
    ensures RemoveItem(urls, id) == urls
  {
    FilterKeepsAll(urls, (x: Item) => x.link.id != id);
  }

  // ---------------------------------------------------------------------------
  // Agreement between the local list and the server
  // ---------------------------------------------------------------------------

  /** The request body the edit sends for a patch: `JSON.stringify` of the
      sent fields, so an omitted field is absent (undefined) on the server. */
  function BodyOf(p: Patch): (r: AnalyticsApi.EditBody)
    ensures p.shortenUrl.Some? ==> r.shortenUrl == AnalyticsApi.Str(p.shortenUrl.value)
    ensures p.shortenUrl.None? ==> !AnalyticsApi.Truthy(r.shortenUrl)
    ensures p.expirationDate.Some? ==> r.expirationDate == p.expirationDate.value
    ensures p.expirationDate.None? ==> r.expirationDate.None?
    ensures p.scheduledDate.Some? ==> r.scheduledDate == p.scheduledDate.value
    ensures p.scheduledDate.None? ==> r.scheduledDate.None?
  {
    AnalyticsApi.EditBody(
      if p.shortenUrl.Some? then AnalyticsApi.Str(p.shortenUrl.value) else AnalyticsApi.Undefined,
      p.expirationDate.GetOr(None),
      p.scheduledDate.GetOr(None))
  }

  /** When the patch carries all three fields and the server accepts it, the
      merged local item equals the record the server now stores. */
  lemma LocalEditMatchesServer(m: map<Id, Link>, id: Id, p: Patch, x: Item)
    requires p.shortenUrl.Some? && p.expirationDate.Some? && p.scheduledDate.Some?
    requires id in m && x.link == m[id]
    requires AnalyticsApi.EditResult(m, Some(id), BodyOf(p)).status == 200
    ensures Merge(x, p).link == AnalyticsApi.EditResult(m, Some(id), BodyOf(p)).store[id]
  {
  }

  /** When the patch omits a date that the record had, the server clears it
      but the local item keeps the old value. */
  lemma LocalEditKeepsOmittedDate(m: map<Id, Link>, id: Id, p: Patch, x: Item)
    requires id in m && x.link == m[id]
    requires p.expirationDate.None? && m[id].expirationDate.Some?
    requires AnalyticsApi.EditResult(m, Some(id), BodyOf(p)).status == 200
    ensures AnalyticsApi.EditResult(m, Some(id), BodyOf(p)).store[id].expirationDate == None
    ensures Merge(x, p).link.expirationDate == m[id].expirationDate != None
  {
  }
}
